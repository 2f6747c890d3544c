# Gameserver operator: a verified model

The operator runs game servers on Kubernetes. Its reconcilers are step functions over the apiserver's objects: each
reads some objects, decides, and writes others, and any of its calls can fail, or take effect and still be reported as
failed. This project models those reconcilers, the builders and validators they call, and the admission webhook for
templates, and proves what they guarantee over whole runs.

`dafny verify dfyconfig.toml` checks everything.

## How the model is laid out

| file | part of the operator |
|---|---|
| Prelude, Conditions, Objects, GameTypes, Stores | shared vocabulary, condition lists, API objects, the object store |
| Calendar, Cron, Retention, BackupSchedules | scheduled Backups: names, due runs, keep-N retention, the reconciler |
| ScheduleOutcomes | what one reconcile of a schedule creates and reports |
| ScheduleRuns, CatchUp, ScheduleRetention, SuccessTimes, Ties | whole runs of one schedule, the success time it records, and equal timestamps |
| Admission, Config, Sorting, PodEnv | template admission, configuration checks, the container's environment |
| Services, ServiceLayouts, Address | Services, what they are in terms of ports and overrides, assigned ports, the published address |
| ServerViews, GameServers, GameServerReconcilers | the GameServer reconciler |
| ServerStatuses, ServerFixpoints, ServerFrames, ServerInvariants, ServerTransitions, ServerNodePorts | its fixpoint, frame, commutation, status invariants, what one reconcile does to a wrong status, and node ports over runs |
| ServerOutcomes, ServerProgress | what one reconcile of a server stores, and how far it gets when calls fail |
| BackupControllers, BackupOutcomes, RestoreLineage, LineageSteps | the Backup reconciler, what one reconcile stores, and where a restored world comes from |
| TemplateCounter | the template reference counter with its watches, caches and queue |

Every reconciler is written twice: as a class whose methods update fields step by step, in the order of the original
code, and as a function from the old state to the new one. The method's postcondition says the two agree; the theorems
are about the function, or about steps it is proved to consist of where a run may interleave inside a reconcile
(`LineageSteps.ReconcileTakesLineageSteps`, `TemplateCounter.StepsComposeToReconcile`). What the function means is
said again without it: ServerOutcomes, BackupOutcomes, ScheduleOutcomes, ServiceLayouts and `PassReports` state names,
fields, labels and conditions from the inputs alone. API calls answer with one of three fates: acknowledged, lost, or
carried out but reported as failed. Clocks, listings (which may be stale), the order in which Go happens to walk a
map, the ports and addresses the apiserver assigns, and the string predicates of the Go library (`Atoi`, `ParseBool`,
quantity parsing) are parameters, so every theorem holds for all of them. The cron library is any function that
returns the least fire time strictly after its argument, on whole minutes, or gives up.

## Where the code and its documentation differ

The model follows the code. Each point below has a lemma.

- Retention counts every Backup without `retainForever` towards `keep`, finished or not, although
  `api/v1alpha1/backupschedule_types.go:38` says successful ones (`VictimIff`, `SurvivorsAreSpared`).
  `NewestSuccessesSurviveIff` says exactly when the `keep` newest successes do survive a fresh pass.
- `lastSuccessfulTime` is the latest success among the Backups that still exist, so it can move backwards.
  `ReconcileMovesBackIff` says exactly when one reconcile does that, whatever lists it is given, and
  `RecordedSuccessMovesBackIff` puts it in terms of the Backups: its status is stored, some success is spared by the
  pass, and all that are have an earlier snapshot than the recorded one. In `UnfinishedBackupDisplacesSuccess` the pass
  deletes the latest success, in `RemovedSuccessIsForgotten` a user did.
- Retention runs while a schedule is suspended, although `api/v1alpha1/backupschedule_types.go:47-48` promises to leave
  existing Backups untouched. `SuspendedLeavesBackupsIff` says exactly when they are.
- Retention deletes the newest victim first, despite the comment at
  `internal/controller/backupschedule_controller.go:164`, so a pass cut short by an error leaves the oldest victims
  (`VictimsAreTheTail`).
- The retention sort breaks ties arbitrarily, so a Backup can be deleted by the very reconcile that created it, and then
  be created again (`TiedCreationIsDeleted`, `EqualTimestampsCreateTwice`). `TiedCreationIsDeletedIff` says when: at least
  `keep` other Backups subject to retention share or exceed its timestamp. The at-most-once theorem allows ties and even
  timestamps that go back, as long as fewer than `room` Backups share or exceed the timestamp of a new one and `keep` is
  at least `room`; with `keep` 1 timestamps have to increase.
- A schedule that never fires makes the cron library return the zero time, and the reconciler then takes it for a run
  that is long overdue (`UnsatisfiableScheduleFires`; `DueRunIsAFireTime` gives the exact condition).
- A malformed storage size sets ConfigValid to True and then to False within one reconcile, and leaves phase and
  address alone (`BadStorageKeepsPhase`), so a server can stay Ready over a configuration that is not valid.
  `MisconfiguredIff` and `MisconfiguredArisesIff` say exactly when a reconcile does that, and `BadSizeLeavesReadyPhase`
  is an input. That path restamps the condition on every pass.
- A rejected configuration is reported with whichever bad key the walk over the map meets first, so with two bad keys
  the condition's message can change from pass to pass (`TwoUnknownKeysDoNotSettle`). These two paths are the only ones
  that are not fixpoints (`ReconcileIsIdempotent`); `RepeatsOnEveryWalkIff` says when no walk makes a difference.
- Ready=True does not imply phase Ready. A Backup keeps a stale condition exactly when its lost snapshot is recreated
  (`BackupControllers.StaleReadyIff`, `AgreementLostIff`), a server exactly when a pass ends at a missing template, a
  rejected configuration or an unavailable restore source, until a complete pass cures it
  (`ServerTransitions.StaleReadyIff`). Inputs are `RecreatedSnapshotLeavesStaleReady` and
  `MissingTemplateLeavesStaleReady`. The other direction holds.
- Services for exposures no longer wanted are never deleted (`ReconcileKeepsOwn`).
- The webhook's comment announces a check of defaults against their type, but only enum defaults are checked.
  `ValueFitsIff` says exactly when a key reaches the pod with a value of its type; `IntDefaultsAreUnchecked` is an input.
- `docs/backups.md` says a restored server's claim is seeded from its Backup. A claim that is deleted between the two
  reads a reconcile makes of it comes back empty, and that is the only way (`EmptyClaimIffDeletedBetweenReads`).

## Model

| member | source | states |
|---|---|---|
| Conditions.ConditionList.Set | internal/controller/gameserver_controller.go:327-349 | The in-place edit of the condition slice performs the list update the lemmas below are about |
| Conditions.PutRefinesMapUpdate | internal/controller/gameserver_controller.go:327-349 | On a list with distinct types a setter call is a map update: types stay distinct, the type set carries the merged entry, every other entry keeps its value and place |
| Conditions.TransitionTimesOverAnyHistory | internal/controller/backupschedule_controller.go:225-247 | After any sequence of setter calls each type carries its latest status, stamped with the time of the last call that changed or introduced it |
| Conditions.LatestChangeIsReported | internal/controller/gameserver_controller.go:327-349 | After any sequence of setter calls each type reports status, reason, message and observed generation of the latest call for it, or what it started with |
| Calendar.CivilRoundTrip | internal/controller/backupschedule_controller.go:141 | The UTC calendar reading of a whole minute in years 0 to 9999 determines the minute |
| Calendar.RenderRoundTrip | internal/controller/backupschedule_controller.go:141 | The 13-character date suffix can be read back |
| Calendar.CivilIsGregorian | internal/controller/backupschedule_controller.go:141 | The calendar reading is the Gregorian one in UTC: it starts at 1 January 1970, midnight, for time 0, and each minute is followed by the next one of the calendar, leap years included |
| Calendar.BackupNameIsRecoverable | internal/controller/backupschedule_controller.go:141 | A scheduled Backup's name is the schedule's, a dash, and the fire time spelled in digits as year, month, day, dash, hour, minute; name and minute can be read back |
| Calendar.BackupNamesAreInjective | internal/controller/backupschedule_controller.go:158-160 | Two scheduled Backups share a name exactly when they are for the same schedule and minute, which lets AlreadyExists mean already fired |
| Cron.DueRunIsAFireTime | internal/controller/backupschedule_controller.go:80-87 | A due run is a real fire time within the reference window exactly when the library found one |
| Cron.UnsatisfiableScheduleFires | internal/controller/backupschedule_controller.go:84-87 | For a schedule without fire times the reconciler still finds a run due, at the zero time |
| Cron.NextFireIsMonotone | internal/controller/backupschedule_controller.go:80-84 | The chosen run never moves back while the clock and the last fire do not |
| Cron.FireTimesAreExact | internal/controller/backupschedule_controller.go:84 | Stepping through next fires lists exactly the fire times of an interval, in order, at most one a minute |
| Retention.VictimsAreTheTail | internal/controller/backupschedule_controller.go:181-194 | The pass asks to delete exactly the Backups after the first `keep` that are subject to retention, in list order |
| Retention.VictimIff | internal/controller/backupschedule_controller.go:181-194 | A Backup is a victim exactly when it lies beyond the first `keep` that are subject to retention |
| Retention.PassStopsAtError | internal/controller/backupschedule_controller.go:190-193 | The pass deletes victims in turn up to the first call that is not acknowledged, which counts only if it took effect |
| Retention.FreshPassKeepsExactly | internal/controller/backupschedule_controller.go:166-196 | On a fresh list without errors min(keep, n) Backups subject to retention survive, and every pinned one |
| Retention.RetentionNeverLosesTheNewest | internal/controller/backupschedule_controller.go:166-196 | Any interleaving of creations, under distinct timestamps in any order, with passes over stale or partial lists, cut short anywhere, keeps the `keep` newest Backups ever created and every pinned one |
| Retention.FreshPassConverges | internal/controller/backupschedule_controller.go:166-196 | From any reachable state one fresh, error-free pass leaves exactly those |
| BackupSchedules.SortNewestFirst | internal/controller/backupschedule_controller.go:172-175 | The in-place sort permutes the list into newest-first order |
| BackupSchedules.BackupScheduleReconciler.SpawnBackup | internal/controller/backupschedule_controller.go:138-162 | Creates under a free name a Backup of the schedule's server in its snapshot class, with its label, not pinned and with an empty status; an existing one is left alone and is no failure |
| BackupSchedules.BackupScheduleReconciler.ApplyRetention | internal/controller/backupschedule_controller.go:166-196 | The sort-and-count loop deletes what the retention function says, up to the first error |
| BackupSchedules.BackupScheduleReconciler.RefreshChildStatus | internal/controller/backupschedule_controller.go:200-223 | The loop computes the unfinished children and the latest success |
| BackupSchedules.BackupScheduleReconciler.Reconcile | internal/controller/backupschedule_controller.go:53-115 | One reconcile, with every call failing or not, leaves schedule and Backups as the reconcile function says |
| ScheduleOutcomes.ReconcileCreates | internal/controller/backupschedule_controller.go:86-194 | A reconcile adds at most the due run's Backup, of the schedule's server, never while suspended, changes no Backup, and removes only what its retention pass asks to delete |
| ScheduleOutcomes.StatusIsReported | internal/controller/backupschedule_controller.go:75-109 | The stored status: generation, run fired, ScheduleValid=True, the names of the unfinished children in list order, the latest success; nothing else changes, and nothing at all when a due run could not be created or the write is lost |
| ScheduleOutcomes.RejectionIsReported | internal/controller/backupschedule_controller.go:65-74 | A time zone or expression that is rejected sets ScheduleValid=False and nothing else |
| BackupSchedules.LatestSuccessIsMaximal | internal/controller/backupschedule_controller.go:206-221 | The refreshed success time is the greatest snapshot time among Ready children |
| BackupSchedules.ActiveListsUnfinished | internal/controller/backupschedule_controller.go:205-218 | activeBackups names exactly the Pending and InProgress children |
| SuccessTimes.ReconcileMovesBackIff | internal/controller/backupschedule_controller.go:86-115 | Over any reconcile the recorded success time moves back exactly when the status write takes effect and the list of the refresh shows some success but only earlier ones |
| SuccessTimes.RecordedSuccessMovesBackIff | internal/controller/backupschedule_controller.go:86-109 | Over one reconcile on fresh lists, the recorded success time moves back exactly when the status write takes effect, some successful Backup is pinned or has fewer than `keep` others subject to retention ahead of it, and all such are earlier than the recorded time |
| SuccessTimes.ListedSuccessMovesBackIff | internal/controller/backupschedule_controller.go:86-109 | When the recorded success is a listed Backup's, this further takes `keep` others subject to retention, finished or not, ahead of that Backup, so that the pass deletes it |
| SuccessTimes.SurvivorsAreSpared | internal/controller/backupschedule_controller.go:181-207 | The refresh after an error-free pass sees exactly the Backups that are pinned or have fewer than `keep` others subject to retention ahead of them |
| SuccessTimes.NewestSuccessesSurviveIff | api/v1alpha1/backupschedule_types.go:38-43 | The `keep` newest successes subject to retention survive a fresh, error-free pass exactly when none lies beyond the first `keep` Backups subject to it or those are all successes |
| SuccessTimes.UnfinishedBackupDisplacesSuccess | internal/controller/backupschedule_controller.go:181-221 | An input: an unfinished Backup takes the only slot, the latest success is deleted, and the reconcile records the earlier time of a pinned one |
| SuccessTimes.RemovedSuccessIsForgotten | internal/controller/backupschedule_controller.go:200-221 | An input: the latest success was deleted by a user, the pass deletes nothing, and the reconcile records an older success |
| BackupSchedules.SuspendedLeavesBackupsIff | internal/controller/backupschedule_controller.go:87-99 | A suspended schedule's Backups stay untouched exactly when no more than `keep` are subject to retention, 7 when `keep` is not positive |
| ScheduleRuns.ReconcilerTakesRunSteps | internal/controller/backupschedule_controller.go:53-115 | The reconciler's postcondition, over a list answered in any order, is a step of the runs below |
| ScheduleRuns.FireTimesAreCreatedInOrder | internal/controller/backupschedule_controller.go:80-109 | Over every run, with calls failing at will and stale lists, each fire time's Backup is created at most once, in increasing order, as long as fewer than `room` Backups share or exceed a new one's timestamp and `keep` is at least `room` |
| ScheduleRuns.NoFireTimeIsDropped | internal/controller/backupschedule_controller.go:77-93 | In every run, from any state, under any `keep` and any timestamps, every fire time the persisted last fire has passed was seen to exist or was at least 24 hours old when passed |
| CatchUp.DrainStep | internal/controller/backupschedule_controller.go:77-93 | At a fixed clock one reconcile creates the oldest fire time of the backlog unless its name is taken, creates nothing else, and moves on |
| CatchUp.RestIsAhead | internal/controller/backupschedule_controller.go:86-109 | In a reachable state only the oldest fire time of the backlog can already have been created |
| CatchUp.CatchUpIsCompleteAndBounded | internal/controller/backupschedule_controller.go:46-93 | From any reachable state, repeated reconciles at a fixed clock create exactly the fire times of the last 24 hours after the last fire whose names are free, in order, and leave nothing due after at most 1440; unless a stranger took a name, that is all of them but possibly the oldest, which exists when its status write was lost |
| ScheduleRetention.ScheduleKeepsItsNewest | internal/controller/backupschedule_controller.go:53-196 | Over whole runs of the reconciler under distinct timestamps the `keep` newest Backups it created, and every pinned one, still exist; a timestamp may go back behind fewer than `room` others, with `room` at most `keep`, so with `keep` 1 they increase |
| ScheduleRetention.SpawnIsCreation | internal/controller/backupschedule_controller.go:86-93 | A reconcile's create call refines a creation of the retention ledger |
| ScheduleRetention.PruningIsPass | internal/controller/backupschedule_controller.go:95-99 | Its retention pass over a possibly stale list refines a pass of the ledger |
| ScheduleRetention.TiedCreationIsDeleted | internal/controller/backupschedule_controller.go:172-194 | An input: with one slot and one older child of equal timestamp a reconcile deletes the Backup it has just created |
| Ties.SomeOrderDeletesIff | internal/controller/backupschedule_controller.go:172-194 | The same for one pass and any child: whether an unlucky order of ties exists is a count of its contenders |
| Ties.TiedCreationIsDeletedIff | internal/controller/backupschedule_controller.go:172-194 | When create and deletes succeed, some newest-first order of a fresh list makes a reconcile delete the Backup it creates exactly when at least `keep` other children subject to retention share or exceed its timestamp |
| ScheduleRetention.EqualTimestampsCreateTwice | internal/controller/backupschedule_controller.go:86-109 | With equal timestamps and a lost status write the same fire time is created twice |
| Admission.ScanPorts | internal/webhook/v1alpha1/gametemplate_webhook.go:71-94 | The scan with first-index maps reports the port errors of the specification |
| Admission.ScanKeys | internal/webhook/v1alpha1/gametemplate_webhook.go:108-150 | The same for configuration keys |
| Admission.ValidateTemplate | internal/webhook/v1alpha1/gametemplate_webhook.go:68-157 | The webhook's error list is the specified one |
| Admission.AdmittedIffAdmissible | internal/webhook/v1alpha1/gametemplate_webhook.go:68-157 | A template is admitted exactly when names, ports, keys and variables are unique, at most one port is primary, and enum lists and enum defaults fit |
| Admission.ErrorsAreExact | internal/webhook/v1alpha1/gametemplate_webhook.go:68-157 | The report holds exactly the problems the template has, each once, in the order of ports, primaries, keys and their checks; a repetition cites the first occurrence |
| Admission.DuplicatesAreAllReported | internal/webhook/v1alpha1/gametemplate_webhook.go:76-130 | For each of the four fields every repetition is reported once, citing the first occurrence; the count is length minus distinct values |
| Config.IndexKeys | internal/controller/builders.go:448-451 | The lookup map answers with the last declaration of each name |
| Config.ValidateConfig | internal/controller/builders.go:447-487 | Reports the first problem its walk over the map meets, else the first missing required key; accepts exactly the valid configurations, in whatever order the map is walked |
| Config.FirstProblemDecides | internal/controller/builders.go:452-486 | On every walk nothing is reported exactly for a valid configuration, and a reported problem is real |
| Config.ValidConfigIff | internal/controller/builders.go:452-486 | A configuration is valid exactly when each configured key is declared, its value an int, a bool or one of the choices as its last declaration asks, and each required key is configured or defaulted |
| Config.EarliestIsReported | internal/controller/builders.go:452-486 | The reported problem is that of the first bad key on the walk, or of the first missing required key when the walk meets none |
| Config.OneReportIff | internal/controller/builders.go:452-473 | All walks report the same exactly when at most one configured key is bad |
| Config.ValidIffNothingViolated | internal/controller/builders.go:447-487 | Validity is the absence of every reportable error |
| Sorting.SortForgetsVisitOrder | internal/controller/builders.go:163-168 | Sorting the keys removes any trace of the map's iteration order |
| Sorting.LessIsDictionaryOrder | internal/controller/builders.go:168 | The order of the keys is the dictionary order of strings |
| PodEnv.MergeIsAMerge | internal/controller/builders.go:138-185 | The merge lists each name once, in order of first occurrence, with its last value |
| PodEnv.MergeIsUnique | internal/controller/builders.go:138-185 | No other list has these properties |
| PodEnv.ResolveEnv | internal/controller/builders.go:138-185 | The map-and-order loops compute the same environment for every iteration order |
| PodEnv.ResolvedEnvIsTheMerge | internal/controller/builders.go:135-185 | An environment is the resolved one exactly when it is the ordered last-wins merge of template, defaults, sorted configuration and overrides |
| PodEnv.SourcesSpelledOut | internal/controller/builders.go:148-181 | What is merged: the template's variables, the defaults in template order, the configured values of declared keys in dictionary order, the overrides |
| PodEnv.KeyResolution | internal/controller/builders.go:148-178 | For each key of an admitted template the resolved environment holds override, else value, else default, else the template's variable |
| PodEnv.TypedConfigReachesThePod | internal/webhook/v1alpha1/gametemplate_webhook.go:108-150 | Admission and validation together guarantee set, well-typed variables in the resolved environment |
| PodEnv.ValueFitsIff | internal/webhook/v1alpha1/gametemplate_webhook.go:108-149 | A key with a value or default, not overridden, gets a value of its type exactly when it is configured or its unchecked default fits; for enum keys always |
| PodEnv.IntDefaultsAreUnchecked | internal/webhook/v1alpha1/gametemplate_webhook.go:108-149 | An input: a default that is no int is resolved into an int key's variable |
| Services.ChildNamesAreInjective | internal/controller/builders.go:65-79 | Claim and Service names identify the server, and Service names the exposure |
| Services.SelectorsSeparateServers | internal/controller/builders.go:46-62 | A server's selector matches its own pods and no other server's |
| Services.ResolveExposure | internal/controller/builders.go:189-203 | The first override naming the port decides exposure and pin, else the template's exposure, ClusterIP by default, without a pin |
| Services.BuildServices | internal/controller/builders.go:344-387 | The grouping loop builds one Service per exposure in use |
| Services.BuildServicesConservesPorts | internal/controller/builders.go:344-387 | The Services hold exactly the template's ports, each once, in the one Service of its effective exposure; at most three, with distinct names |
| Services.GroupsFollowTheTemplate | internal/controller/builders.go:349-368 | Each Service lists its ports in template order and omits none |
| ServiceLayouts.ServicesHaveLayout | internal/controller/builders.go:344-387 | The built Services are exactly one per exposure in use, in order of first use, named, labelled and selecting as the server's, each with all ports the first override, else the template, puts there, in template order with number, protocol and pin; no other list is |
| Services.MergeServicePorts | internal/controller/gameserver_controller.go:290-303 | The merge loop keeps an assigned node port unless the desired port pins one |
| ServiceLayouts.AppliedIsStoredOver | internal/controller/gameserver_controller.go:261-303 | An applied Service is stored as desired, and keeps cluster IP, ingress points and the node ports that are not pinned anew |
| Services.ApplyIsIdempotent | internal/controller/gameserver_controller.go:261-303 | Merging is idempotent, and a repeated apply asks for nothing new and is granted nothing new |
| Services.NodePortsAreStable | internal/controller/gameserver_controller.go:277-303 | Over any applies to one Service that all want the port, failing or not, it keeps its node port until a pin replaces it |
| ServerNodePorts.OwnReconcileKeepsNodePort | internal/controller/gameserver_controller.go:261-303 | Whatever fails, a server's reconcile keeps the node port of a port that is still wanted, and replaces it by the pin exactly when there is one and the pass writes that Service |
| ServerNodePorts.NodePortsStayOverRuns | internal/controller/gameserver_controller.go:53-303 | Over runs of stores, reconciles of any servers interleaved with edits of templates and servers, an assigned node port is at the end the last pin a reconcile of the server wrote, or the first one, as long as no write of that Service drops the port |
| Address.PrimaryPort | internal/controller/builders.go:207-229 | The first port marked primary, else the first with TCP or no protocol, else the first of all, with its effective exposure and pin |
| Address.PrimaryAddress | internal/controller/builders.go:391-443 | The lookup loops compute the address function |
| Address.PrimaryAddressIsConsistent | internal/controller/builders.go:391-443 | The lookup finds the Service holding the chosen port under its effective exposure; the address is the cluster IP or DNS name, the stored node port, or the ingress hostname, else IP, with the Service's port, or empty when there is neither |
| Address.NoAddress | internal/controller/builders.go:391-408 | Without ports, without a number for the chosen one or without a Service of its exposure the address is empty |
| Address.ItoaReads | internal/controller/builders.go:391-443 | Port numbers are written in decimal without leading zeros |
| ServerViews.EmbedFramesOthers | internal/controller/builders.go:65-79 | One server's objects are disjoint from another's, the shared account aside |
| GameServerReconcilers.GameServerReconciler.EnsureServiceAccount | internal/controller/gameserver_controller.go:308-325 | Creates the account if it is missing and leaves an existing one alone |
| GameServerReconcilers.GameServerReconciler.ResolveRestoreSource | internal/controller/gameserver_controller.go:195-222 | Which snapshot seeds the claim, or why none can |
| GameServerReconcilers.GameServerReconciler.ApplyPVC | internal/controller/gameserver_controller.go:226-240 | Creates a missing claim; an existing one only gets its labels back |
| GameServerReconcilers.GameServerReconciler.ApplyDeploymentTo | internal/controller/gameserver_controller.go:244-256 | Replaces labels and spec and keeps the reported status |
| GameServerReconcilers.GameServerReconciler.ApplyServiceTo | internal/controller/gameserver_controller.go:261-286 | Creates and re-reads, or merges; returns what is stored |
| GameServerReconcilers.GameServerReconciler.Reconcile | internal/controller/gameserver_controller.go:53-187 | One reconcile, whichever calls fail, leaves the store as the reconcile function says, whatever order the maps are walked in; the rows of ServerOutcomes and ServerProgress say what that is |
| ServerOutcomes.PassIsExact | internal/controller/gameserver_controller.go:94-180 | A fault-free pass stores Deployment (replicas, image, account, claim, labels, selector, merged environment), claim (size, class, source, owner), Services, account and status (phase, generations, replicas, conditions) as spelled out from server, template and store |
| ServerOutcomes.KeyReachesThePod | internal/controller/builders.go:135-185 | In the stored Deployment each key's variable is override, else value, else default, else the template's |
| ServerOutcomes.VariableReachesThePod | internal/controller/builders.go:135-185 | Any other variable of the stored Deployment is an override's, else the template's |
| ServerOutcomes.TypedConfigIsDeployed | internal/webhook/v1alpha1/gametemplate_webhook.go:108-150 | In the stored Deployment required keys are set, and enum, int and bool values fit their type wherever admission and validation checked them |
| ServerOutcomes.DeployedValueFitsIff | internal/webhook/v1alpha1/gametemplate_webhook.go:108-149 | A key with a value or default, not overridden, reaches the pod with a value of its type exactly when it is configured or its unchecked default fits |
| ServerOutcomes.MissingTemplateIsReported | internal/controller/gameserver_controller.go:64-78 | A missing template sets phase Pending and TemplateResolved=False and changes nothing else |
| ServerOutcomes.RejectedConfigIsReported | internal/controller/gameserver_controller.go:80-89 | A rejected configuration sets phase Degraded and ConfigValid=False with the reported problem, and changes nothing else |
| ServerOutcomes.UnavailableSourceIsReported | internal/controller/gameserver_controller.go:94-114 | An unavailable restore source sets phase Degraded and RestoreSourceResolved=False; besides, at most the account appears |
| ServerOutcomes.BadSizeIsReported | internal/controller/gameserver_controller.go:115-124 | A size that does not parse stamps ConfigValid=False anew and leaves phase and children alone |
| ServerProgress.PassIsStepwise | internal/controller/gameserver_controller.go:53-187 | Whichever calls fail, account, claim, Deployment, each Service and the final status are written exactly when the calls before were answered and the write took effect |
| ServerStatuses.BadStorageRestamps | internal/controller/gameserver_controller.go:90-124 | A malformed size always stamps ConfigValid with the current time |
| ServerStatuses.BadStorageSettlesIff | internal/controller/gameserver_controller.go:90-124 | That status repeats itself exactly at an unchanged clock |
| ServerStatuses.InvalidSettlesIff | internal/controller/gameserver_controller.go:82-89 | A rejected configuration's status repeats itself exactly when the next pass reports the same problem |
| ServerStatuses.FinishedSettles | internal/controller/gameserver_controller.go:161-180 | The status of a completed pass repeats itself at any later clock, transition times included |
| ServerFixpoints.PassBuildsChildren | internal/controller/gameserver_controller.go:120-180 | A fault-free pass leaves claim, Deployment and every desired Service as built and merged, other Services untouched, and a status describing the result |
| ServerFixpoints.ReconcileIsIdempotent | internal/controller/gameserver_controller.go:53-187 | For an admitted template a second reconcile, with its own walk over the configuration, leaves the whole store unchanged, except exactly on the malformed-size path at a later clock and when it reports another problem |
| ServerFixpoints.RepeatsOnEveryWalkIff | internal/controller/builders.go:452-473 | With a size that parses, a second reconcile is sure to leave the store unchanged exactly when at most one configured key is bad |
| ServerFixpoints.TwoUnknownKeysDoNotSettle | internal/controller/builders.go:452-456 | An input: with two unknown keys the second pass can change the store even at the same clock |
| ServerFrames.ReconcileFramesOthers | internal/controller/gameserver_controller.go:226-325 | Whatever fails, nothing of another server changes, nor any template, Backup or snapshot; at most the shared account appears |
| ServerFrames.ReconcileFramesKeys | internal/controller/builders.go:65-79 | Object by object, only the server's own names and the account can change |
| ServerFrames.ReconcilesCommute | internal/controller/gameserver_controller.go:53-325 | Reconciles of two servers give the same store in either order, whichever calls fail; only where both are to create the missing account they share must the two creations be both acknowledged or both lost |
| ServerFrames.ContestedCommuteIff | internal/controller/gameserver_controller.go:94-98 | Two new servers contesting the account commute exactly then |
| ServerFrames.OrdersDiffer | internal/controller/gameserver_controller.go:308-325 | An input: with the first creation lost, the order decides whether that server is deployed |
| ServerFrames.ReconcileIgnoresAccount | internal/controller/gameserver_controller.go:94-98 | Which account is found makes no difference to anything else, unless it is the difference between finding one and failing to create one |
| ServerFrames.ReconcileKeepsOwn | internal/controller/gameserver_controller.go:224-286 | An existing claim only ever has its labels put back; a Service no longer wanted is neither updated nor deleted |
| ServerInvariants.ReadyPhaseImpliesConditions | internal/controller/gameserver_controller.go:64-180 | In every reachable state phase Ready implies Ready=True and TemplateResolved=True |
| ServerInvariants.FinishedIsHonest | internal/controller/gameserver_controller.go:166-176 | After a completed pass phase and Ready condition agree with suspension and replicas |
| ServerInvariants.BadStorageKeepsPhase | internal/controller/gameserver_controller.go:120-124 | A malformed size marks the configuration invalid but leaves phase and address |
| ServerTransitions.StaleReadyIff | internal/controller/gameserver_controller.go:53-187 | A stored status turns a held Ready=True stale exactly when the pass ends at a missing template, a rejected configuration or an unavailable restore source, a complete pass cures it, and otherwise nothing changes |
| ServerTransitions.MissingTemplateLeavesStaleReady | internal/controller/gameserver_controller.go:66-76 | An input: losing the template keeps a stale Ready=True at phase Pending |
| ServerTransitions.MisconfiguredIff | internal/controller/gameserver_controller.go:53-187 | A stored status for a size that does not parse leaves phase Ready over an untrue ConfigValid whenever the phase was Ready, one stored at any other end cures it, and otherwise nothing changes |
| ServerTransitions.MisconfiguredArisesIff | internal/controller/gameserver_controller.go:120-124 | From any other server it arises exactly when the pass gets to the size, the size does not parse, the phase was Ready and the status write takes effect |
| ServerTransitions.BadSizeLeavesReadyPhase | internal/controller/gameserver_controller.go:120-124 | An input: a Ready server given a size that does not parse stays Ready at its address while ConfigValid turns False |
| ServerInvariants.BuiltPartsFit | internal/controller/builders.go:57-338 | After a pass that built the children they fit together: Services and Deployment select the server's own pods and nobody else's, the pods mount its claim under an account that exists, and a new claim's size parses |
| ServerInvariants.AddressReachesTheStoredService | internal/controller/gameserver_controller.go:141-164 | After a pass over an admitted template the published address leads to the stored Service of the chosen port under its effective exposure: its cluster IP or DNS name, its stored node port, or its ingress point |
| BackupControllers.BackupReconciler.Reconcile | internal/controller/backup_controller.go:45-135 | One Backup reconcile, whichever calls fail, leaves the store as the reconcile function says; the rows of BackupOutcomes say what that is |
| BackupOutcomes.MirroringIsExact | internal/controller/backup_controller.go:91-134 | A pass over an existing snapshot stores its size and creation time where it has them, phase Ready, Failed or InProgress by readiness and error, and the two conditions; nothing else changes |
| BackupOutcomes.ReadySnapshotSucceeds | internal/controller/backup_controller.go:107-121 | A ReadyToUse snapshot with a creation time makes its Backup a success with that time |
| BackupOutcomes.SnapshotIsTaken | internal/controller/backup_controller.go:72-89 | Without a snapshot the pass creates one of the server's claim in the class asked for, labelled with the Backup, and once acknowledged reports the Backup in progress |
| BackupOutcomes.MissingServerIsReported | internal/controller/backup_controller.go:56-69 | A Backup without its server waits at Pending with Ready=False |
| BackupOutcomes.UnansweredReadsEndThePass | internal/controller/backup_controller.go:48-90 | A read that fails leaves everything as it was |
| BackupOutcomes.ScheduledBackupIsTaken | internal/controller/backupschedule_controller.go:138-162 | Through both controllers: the Backup a schedule creates is taken of the claim of the schedule's server, in its class |
| BackupOutcomes.ReadyBackupIsRecorded | internal/controller/backupschedule_controller.go:200-221 | And once its snapshot is ready, the refresh that lists it records a success no earlier than the snapshot |
| BackupControllers.MirroredIsHonest | internal/controller/backup_controller.go:94-134 | The mirrored phase is Ready exactly when the snapshot is ReadyToUse, and then so is the condition |
| BackupControllers.ReadyPhaseImpliesReadyCondition | internal/controller/backup_controller.go:58-134 | In every reachable state, snapshots deleted out of band included, phase Ready implies Ready=True |
| BackupControllers.StaleReadyIff | internal/controller/backup_controller.go:58-134 | Recreating a lost snapshot turns a held Ready=True stale, any other stored status cures it, and otherwise nothing changes |
| BackupControllers.RecreatedSnapshotLeavesStaleReady | internal/controller/backup_controller.go:81-89 | An input: recreating a lost snapshot keeps Ready=True at phase InProgress |
| BackupControllers.AgreementLostIff | internal/controller/backup_controller.go:81-89 | Phase and condition of a Backup stop agreeing exactly when a Ready one's lost snapshot is recreated and the status stored |
| RestoreLineage.BackupReconcileWrites | internal/controller/backup_controller.go:72-134 | A Backup becomes Ready only over its own ReadyToUse snapshot |
| RestoreLineage.RestoredClaimsHaveLineage | internal/controller/gameserver_controller.go:100-130 | In every run a claim created for a server with restoreFrom names the snapshot of that Backup, which was ReadyToUse earlier and was taken of the claim of the server the Backup names |
| RestoreLineage.EmptyClaimIffDeletedBetweenReads | internal/controller/gameserver_controller.go:195-240 | Such a claim is empty exactly when one existed at the first read and was gone at the second |
| LineageSteps.ReconcileTakesLineageSteps | internal/controller/gameserver_controller.go:53-187 | A whole reconcile that reaches the claim is a resolve step, an apply step and an outside step of those runs; any other is an outside step |
| TemplateCounter.GameTemplateReconciler.CountServers | internal/controller/gametemplate_controller.go:57-62 | The loop counts the listed servers that name the template |
| TemplateCounter.GameTemplateReconciler.HasAvailableCondition | internal/controller/gametemplate_controller.go:103-110 | Finds whether some Available condition is True |
| TemplateCounter.GameTemplateReconciler.Reconcile | internal/controller/gametemplate_controller.go:42-101 | Early exit, optimistic status write, and what makes the queue take the name back |
| TemplateCounter.PassReports | internal/controller/gametemplate_controller.go:42-101 | A pass stores the number of servers naming the template and Available=True unless both are so already, the update is lost or the template was written meanwhile; it is run again unless that was acknowledged |
| TemplateCounter.ServersRegisteredIsExact | internal/controller/gametemplate_controller.go:42-133 | In every reachable state a template nobody is about to look at is available and counts the servers its cache knows to name it, so its count is real exactly when the cache has the right number, in particular once the events of those servers are taken in |
| TemplateCounter.StepsComposeToReconcile | internal/controller/gametemplate_controller.go:42-76 | Fetch, list and finish steps, with anything in between, leave what one reconcile leaves that is answered at those moments |
| TemplateCounter.TakeEndsReconcile | internal/controller/gametemplate_controller.go:45-51 | A fetch that fails or finds nothing leaves what one reconcile leaves |
| TemplateCounter.WorkIsPrivate | internal/controller/gametemplate_controller.go:42-76 | Nothing in between but a restart touches the work in progress on a template |
| TemplateCounter.OnePassCounts | internal/controller/gametemplate_controller.go:42-76 | Once caches have caught up one fault-free reconcile makes the stored count exact |

## Left out

- Process wiring: manager setup, RBAC, TLS, leader election, metrics, owner references and garbage collection beyond the claim's owner.
- Deployment fields other than replicas, labels, selector, image, environment, account and claim: probes, resources, security contexts, update strategy are constants or copies.
- The GameServer webhook: a wrapper around ValidateConfig, which is modelled.
- Texts of errors and condition messages; a short stand-in distinguishes the cases the code distinguishes, and for a rejected configuration the key.
- Requeue durations and log lines.
- Widths of Go integers: counts, ports and generations are unbounded, so the int32 count of a template cannot wrap.
- Years beyond 9999, where the date layout gets wider than the name format expects.
- Other writers during a reconcile: a GameServer, Backup or BackupSchedule reconcile is one step, except where RestoreLineage splits the two reads of the claim and TemplateCounter splits get, list and write. A status update rejected as outdated is a lost call.
- Stale reads of the BackupSchedule itself; only its child lists may be stale.
- metav1.Now is read once per reconcile, not once per condition.
- PassBuildsChildren: assumes port names are unique, which admission guarantees; a template stored without admission is not covered.
- FireTimesAreCreatedInOrder: assumes fresh reads of the schedule, retention slots for the Backups that share or exceed a new one's timestamp, a schedule that always has another fire time, and no other creator or deleter of its labelled Backups; EqualTimestampsCreateTwice shows that with one slot a tie is too many.
- TiedCreationIsDeletedIff: assumes a fresh list and create and delete calls that succeed.
- NodePortsStayOverRuns: assumes nobody else edits the ports of a server's Services or deletes them.
- RestoredClaimsHaveLineage: assumes, as the code does, that nobody else creates VolumeSnapshots or owned claims, that restoreFrom and gameServerRef stay as they are, and that no claim is deleted between a reconcile's two reads of it.
