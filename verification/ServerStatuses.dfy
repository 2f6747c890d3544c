/** The statuses a GameServer reconcile can write, and which of them repeat themselves on the next pass. */
module ServerStatuses {
  import opened Prelude
  import opened Conditions
  import opened GameTypes
  import opened Config
  import opened Services
  import opened Address
  import opened Stores
  import opened GameServers

  // ---------------------------------------------------------------------------------------------
  // Conditions that already say what they are set to
  // ---------------------------------------------------------------------------------------------

  predicate Says(cs: seq<Condition>, kind: string, s: ConditionStatus, reason: string, message: string,
                 generation: int) {
    var c := Find(cs, kind);
    c.Some? && c.value == Condition(kind, s, reason, message, c.value.lastTransitionTime, generation)
  }

  lemma MarkSays(gs: GameServer, st: ServerStatus, kind: string, s: ConditionStatus, reason: string, message: string,
                 now: int)
    ensures var after := Mark(gs, st, kind, s, reason, message, now);
            && after == st.(conditions := after.conditions)
            && Says(after.conditions, kind, s, reason, message, gs.generation)
            && Find(after.conditions, kind).value.lastTransitionTime
               == (var c := Find(st.conditions, kind);
                   if c.Some? && c.value.status == s then c.value.lastTransitionTime else now)
  {
    PutStaysPut(st.conditions, Change(kind, s, reason, message, now, gs.generation));
  }

  lemma MarkKeepsOthers(gs: GameServer, st: ServerStatus, kind: string, s: ConditionStatus, reason: string,
                        message: string, now: int, other: string)
    requires other != kind
    ensures Find(Mark(gs, st, kind, s, reason, message, now).conditions, other) == Find(st.conditions, other)
  {
    PutKeepsOthers(st.conditions, Change(kind, s, reason, message, now, gs.generation), other);
  }

  lemma MarkIdle(gs: GameServer, st: ServerStatus, kind: string, s: ConditionStatus, reason: string, message: string,
                 now: int)
    requires Says(st.conditions, kind, s, reason, message, gs.generation)
    ensures Mark(gs, st, kind, s, reason, message, now) == st
  {
  }

  // ---------------------------------------------------------------------------------------------
  // Status functions are idempotent
  // ---------------------------------------------------------------------------------------------

  function With(gs: GameServer, st: ServerStatus): GameServer {
    gs.(status := st)
  }

  /** The template condition, and every later stage keeps it. */
  lemma TemplateMissingSettles(gs: GameServer, now: int, later: int)
    ensures var st := TemplateMissing(gs, now); TemplateMissing(With(gs, st), later) == st
  {
    hide Mark, Says;
    var st := TemplateMissing(gs, now);
    MarkSays(gs, gs.status, TEMPLATE_RESOLVED, ConditionFalse, "NotFound", gs.spec.template, now);
    MarkIdle(With(gs, st), st, TEMPLATE_RESOLVED, ConditionFalse, "NotFound", gs.spec.template, later);
  }

  lemma ResolvedSays(gs: GameServer, now: int)
    ensures Says(Resolved(gs, now).conditions, TEMPLATE_RESOLVED, ConditionTrue, "Resolved", "GameTemplate resolved",
        gs.generation)
  {
    hide Mark, Says;
    MarkSays(gs, gs.status, TEMPLATE_RESOLVED, ConditionTrue, "Resolved", "GameTemplate resolved", now);
  }

  lemma ResolvedIdle(gs: GameServer, later: int)
    requires Says(gs.status.conditions, TEMPLATE_RESOLVED, ConditionTrue, "Resolved", "GameTemplate resolved",
        gs.generation)
    ensures Resolved(gs, later) == gs.status
  {
    hide Mark, Says;
    MarkIdle(gs, gs.status, TEMPLATE_RESOLVED, ConditionTrue, "Resolved", "GameTemplate resolved", later);
  }

  /** A rejected configuration repeats its status exactly when the next pass reports the same problem. */
  lemma InvalidSettlesIff(gs: GameServer, e: ConfigError, f: ConfigError, now: int, later: int)
    ensures var st := Invalid(gs, e, now); Invalid(With(gs, st), f, later) == st <==> Describe(f) == Describe(e)
  {
    hide Mark, Resolved, Describe;
    var st0, st := Resolved(gs, now), Invalid(gs, e, now);
    ResolvedSays(gs, now);
    MarkKeepsOthers(gs, st0, CONFIG_VALID, ConditionFalse, "Invalid", Describe(e), now, TEMPLATE_RESOLVED);
    MarkSays(gs, st0, CONFIG_VALID, ConditionFalse, "Invalid", Describe(e), now);
    ResolvedIdle(With(gs, st), later);
    MarkSays(With(gs, st), st, CONFIG_VALID, ConditionFalse, "Invalid", Describe(f), later);
    if Describe(f) == Describe(e) {
      MarkIdle(With(gs, st), st, CONFIG_VALID, ConditionFalse, "Invalid", Describe(e), later);
    }
  }

  predicate ValidSaid(gs: GameServer, cs: seq<Condition>) {
    && Says(cs, TEMPLATE_RESOLVED, ConditionTrue, "Resolved", "GameTemplate resolved", gs.generation)
    && Says(cs, CONFIG_VALID, ConditionTrue, "Valid", "config satisfies template", gs.generation)
  }

  lemma ValidSays(gs: GameServer, now: int)
    ensures ValidSaid(gs, Valid(gs, now).conditions)
  {
    hide Mark, Resolved;
    ResolvedSays(gs, now);
    MarkKeepsOthers(gs, Resolved(gs, now), CONFIG_VALID, ConditionTrue, "Valid", "config satisfies template", now,
        TEMPLATE_RESOLVED);
    MarkSays(gs, Resolved(gs, now), CONFIG_VALID, ConditionTrue, "Valid", "config satisfies template", now);
  }

  lemma ValidIdle(gs: GameServer, later: int)
    requires ValidSaid(gs, gs.status.conditions)
    ensures Valid(gs, later) == gs.status
  {
    hide Mark, Resolved, Says;
    ResolvedIdle(gs, later);
    MarkIdle(gs, gs.status, CONFIG_VALID, ConditionTrue, "Valid", "config satisfies template", later);
  }

  lemma UnavailableSettles(gs: GameServer, why: string, now: int, later: int)
    ensures var st := Unavailable(gs, why, now); Unavailable(With(gs, st), why, later) == st
  {
    hide Mark, Valid;
    var st0, st := Valid(gs, now), Unavailable(gs, why, now);
    ValidSays(gs, now);
    MarkKeepsOthers(gs, st0, RESTORE_RESOLVED, ConditionFalse, "Unavailable", why, now, TEMPLATE_RESOLVED);
    MarkKeepsOthers(gs, st0, RESTORE_RESOLVED, ConditionFalse, "Unavailable", why, now, CONFIG_VALID);
    MarkSays(gs, st0, RESTORE_RESOLVED, ConditionFalse, "Unavailable", why, now);
    ValidIdle(With(gs, st), later);
    MarkIdle(With(gs, st), st, RESTORE_RESOLVED, ConditionFalse, "Unavailable", why, later);
  }

  predicate RestoreSaid(gs: GameServer, cs: seq<Condition>) {
    gs.spec.restoreFrom.Some? ==>
      Says(cs, RESTORE_RESOLVED, ConditionTrue, "SnapshotBound", "restoreFrom Backup snapshot ready", gs.generation)
  }

  lemma RestorableSays(gs: GameServer, now: int)
    ensures ValidSaid(gs, Restorable(gs, now).conditions) && RestoreSaid(gs, Restorable(gs, now).conditions)
  {
    hide Mark, Valid;
    ValidSays(gs, now);
    if gs.spec.restoreFrom.Some? {
      var st0 := Valid(gs, now);
      MarkKeepsOthers(gs, st0, RESTORE_RESOLVED, ConditionTrue, "SnapshotBound", "restoreFrom Backup snapshot ready",
          now, TEMPLATE_RESOLVED);
      MarkKeepsOthers(gs, st0, RESTORE_RESOLVED, ConditionTrue, "SnapshotBound", "restoreFrom Backup snapshot ready",
          now, CONFIG_VALID);
      MarkSays(gs, st0, RESTORE_RESOLVED, ConditionTrue, "SnapshotBound", "restoreFrom Backup snapshot ready", now);
    }
  }

  lemma RestorableIdle(gs: GameServer, later: int)
    requires ValidSaid(gs, gs.status.conditions) && RestoreSaid(gs, gs.status.conditions)
    ensures Restorable(gs, later) == gs.status
  {
    hide Mark, Valid, Says, ValidSaid;
    ValidIdle(gs, later);
    if gs.spec.restoreFrom.Some? {
      MarkIdle(gs, gs.status, RESTORE_RESOLVED, ConditionTrue, "SnapshotBound", "restoreFrom Backup snapshot ready",
          later);
    }
  }

  /** The Ready condition a finished pass sets. */
  function Verdict(gs: GameServer, replicas: int): (ConditionStatus, string, string) {
    if gs.spec.suspend then (ConditionFalse, "Suspended", "spec.suspend=true")
    else if replicas >= 1 then (ConditionTrue, "PodReady", "pod is Ready")
    else (ConditionFalse, "PodNotReady", "waiting for pod to become Ready")
  }

  lemma FinishedSettles(k: Key, gs: GameServer, tpl: GameTemplate, replicas: int, applied: seq<NamedService>, now: int,
                        later: int)
    ensures var st := Finished(k, gs, tpl, replicas, applied, now);
            Finished(k, With(gs, st), tpl, replicas, applied, later) == st
  {
    hide Mark, Restorable, AddressOf, Says;
    var st := Finished(k, gs, tpl, replicas, applied, now);
    var st0 := Restorable(gs, now).(readyReplicas := replicas, observedGeneration := gs.generation,
                                    templateGeneration := tpl.generation,
                                    address := AddressOf(k.ns, k.name, gs.spec.exposeOverride, tpl.spec.ports,
                                        applied));
    var (s, reason, message) := Verdict(gs, replicas);
    RestorableSays(gs, now);
    ReadyKeepsTheRest(gs, st0, s, reason, message, now);
    MarkSays(gs, st0, READY, s, reason, message, now);
    RestorableIdle(With(gs, st), later);
    MarkIdle(With(gs, st), st, READY, s, reason, message, later);
  }

  lemma ReadyKeepsTheRest(gs: GameServer, st: ServerStatus, s: ConditionStatus, reason: string, message: string,
                          now: int)
    requires ValidSaid(gs, st.conditions) && RestoreSaid(gs, st.conditions)
    ensures var cs := Mark(gs, st, READY, s, reason, message, now).conditions;
            ValidSaid(gs, cs) && RestoreSaid(gs, cs)
  {
    hide Mark;
    MarkKeepsOthers(gs, st, READY, s, reason, message, now, TEMPLATE_RESOLVED);
    MarkKeepsOthers(gs, st, READY, s, reason, message, now, CONFIG_VALID);
    MarkKeepsOthers(gs, st, READY, s, reason, message, now, RESTORE_RESOLVED);
  }

  // ---------------------------------------------------------------------------------------------
  // The invalid-storage path flips ConfigValid twice
  // ---------------------------------------------------------------------------------------------

  /** A bad size sets ConfigValid True and then False in one pass, so the transition is always stamped anew. */
  lemma BadStorageRestamps(gs: GameServer, size: string, now: int)
    ensures var cs := BadStorage(gs, size, now).conditions;
            && Says(cs, CONFIG_VALID, ConditionFalse, "InvalidStorage", size, gs.generation)
            && Find(cs, CONFIG_VALID).value.lastTransitionTime == now
            && Says(cs, TEMPLATE_RESOLVED, ConditionTrue, "Resolved", "GameTemplate resolved", gs.generation)
            && RestoreSaid(gs, cs)
  {
    hide Mark, Restorable;
    RestorableSays(gs, now);
    var st0 := Restorable(gs, now);
    MarkSays(gs, st0, CONFIG_VALID, ConditionFalse, "InvalidStorage", size, now);
    MarkKeepsOthers(gs, st0, CONFIG_VALID, ConditionFalse, "InvalidStorage", size, now, TEMPLATE_RESOLVED);
    MarkKeepsOthers(gs, st0, CONFIG_VALID, ConditionFalse, "InvalidStorage", size, now, RESTORE_RESOLVED);
  }

  lemma BadStorageSettlesIff(gs: GameServer, size: string, now: int, later: int)
    ensures var st := BadStorage(gs, size, now); BadStorage(With(gs, st), size, later) == st <==> later == now
  {
    hide Mark, BadStorage, Says;
    var st := BadStorage(gs, size, now);
    BadStorageRestamps(gs, size, now);
    BadStorageRestamps(With(gs, st), size, later);
    if later == now {
      BadStorageAgain(With(gs, st), size, now);
    }
  }

  /** At an unchanged clock the two flips cancel out. */
  lemma BadStorageAgain(gs: GameServer, size: string, now: int)
    requires Says(gs.status.conditions, CONFIG_VALID, ConditionFalse, "InvalidStorage", size, gs.generation)
    requires Find(gs.status.conditions, CONFIG_VALID).value.lastTransitionTime == now
    requires Says(gs.status.conditions, TEMPLATE_RESOLVED, ConditionTrue, "Resolved", "GameTemplate resolved",
        gs.generation)
    requires RestoreSaid(gs, gs.status.conditions)
    ensures BadStorage(gs, size, now) == gs.status
  {
    hide Put, Find;
    ResolvedIdle(gs, now);
    var st := Valid(gs, now);
    RestoreStillSaid(gs, now);
    if gs.spec.restoreFrom.Some? {
      MarkIdle(gs, st, RESTORE_RESOLVED, ConditionTrue, "SnapshotBound", "restoreFrom Backup snapshot ready", now);
    }
    assert Restorable(gs, now) == st;
    FlipsCancel(gs.status.conditions, Change(CONFIG_VALID, ConditionTrue, "Valid", "config satisfies template", now,
        gs.generation),
                Change(CONFIG_VALID, ConditionFalse, "InvalidStorage", size, now, gs.generation));
  }

  lemma RestoreStillSaid(gs: GameServer, now: int)
    requires RestoreSaid(gs, gs.status.conditions)
    requires Resolved(gs, now) == gs.status
    ensures RestoreSaid(gs, Valid(gs, now).conditions)
  {
    MarkKeepsOthers(gs, gs.status, CONFIG_VALID, ConditionTrue, "Valid", "config satisfies template", now,
        RESTORE_RESOLVED);
  }

  lemma FlipsCancel(cs: seq<Condition>, up: Change, down: Change)
    requires up.kind == down.kind && up.status != down.status
    requires Find(cs, down.kind) == Some(Condition(down.kind, down.status, down.reason, down.message, down.now,
        down.generation))
    ensures Put(Put(cs, up), down) == cs
  {
    PutStaysPut(cs, up);
  }
}
