/** Catching up: what repeated reconciles at a fixed clock create, from any state a run can reach. */
module CatchUp {
  import opened Prelude
  import opened Calendar
  import opened Cron
  import opened Objects
  import opened Retention
  import opened BackupSchedules
  import opened ScheduleRuns

  /** Reconciles at a fixed clock of an unsuspended schedule whose create and status calls succeed; list, delete
      and refresh calls may still fail. */
  ghost predicate Drains(lib: Library, c: Cron, s: string, now: int, w: World, w': World) {
    && !w.schedule.spec.suspend
    && exists a :: Reconciled(lib, c, s, w, w', a) && a.now == now && a.create.Acknowledged? && a.write.TookEffect()
  }

  ghost predicate IsDrain(lib: Library, c: Cron, s: string, now: int, run: seq<World>) {
    && |run| > 0
    && forall i :: 0 <= i < |run| - 1 ==> Drains(lib, c, s, now, run[i], run[i + 1])
  }

  /** Fire times still to be caught up with at a given time. */
  ghost function Backlog(c: Cron, now: int, w: World): seq<int>
    requires Lawful(c)
  {
    FireTimes(c, Reference(now, w.Last()), now)
  }

  predicate AllNameable(fires: seq<int>) {
    forall i :: 0 <= i < |fires| ==> Nameable(fires[i])
  }

  /** A Backup bears the fire time's name. */
  predicate Claimed(s: string, backups: map<string, Backup>, u: int)
    requires Nameable(u)
  {
    BackupName(s, u) in backups
  }

  /** The fire times of a list whose names are free. */
  function Unclaimed(s: string, backups: map<string, Backup>, fires: seq<int>): seq<int>
    requires AllNameable(fires)
  {
    if fires == [] then []
    else
      var n := |fires| - 1;
      Unclaimed(s, backups, fires[..n]) + if Claimed(s, backups, fires[n]) then [] else [fires[n]]
  }

  /** No list ever showed a child of the schedule with the name of one of these fire times. */
  ghost predicate Ahead(s: string, views: seq<map<string, Backup>>, fires: seq<int>)
    requires AllNameable(fires)
  {
    forall view, i :: view in views && 0 <= i < |fires| ==> !Own(view, BackupName(s, fires[i]), s)
  }

  predicate SameClaims(s: string, before: map<string, Backup>, after: map<string, Backup>, fires: seq<int>)
    requires AllNameable(fires)
  {
    forall i :: 0 <= i < |fires| ==> (Claimed(s, before, fires[i]) <==> Claimed(s, after, fires[i]))
  }

  // ---------------------------------------------------------------------------------------------
  // One reconcile
  // ---------------------------------------------------------------------------------------------

  /** The create call touches no name but its own. */
  lemma SpawnClaims(c: Cron, s: string, w: World, a: Answers, fires: seq<int>)
    requires Lawful(c) && ClockInRange(a.now) && AllNameable(fires)
    requires forall i :: 0 <= i < |fires| ==> fires[i] != NextFire(c, a.now, w.Last())
    requires Ahead(s, w.history, fires) && w.backups in w.history
    ensures var mid := AfterSpawn(c, s, w, a);
            SameClaims(s, w.backups, mid, fires) && Ahead(s, w.history + [mid], fires)
  {
    hide BackupName, Renderable;
    var mid := AfterSpawn(c, s, w, a);
    if mid != w.backups {
      var fire := NextFire(c, a.now, w.Last());
      DueRunIsRenderable(c, a.now, w.Last());
      forall i | 0 <= i < |fires|
        ensures BackupName(s, fires[i]) != BackupName(s, fire)
      {
        assert Nameable(fires[i]) && Nameable(fire);
        BackupNamesAreInjective(s, fires[i], s, fire);
      }
    }
  }

  /** A retention pass deletes no name a child never had. */
  lemma PassClaims(s: string, views: seq<map<string, Backup>>, mid: map<string, Backup>, order: seq<NamedBackup>,
                   keep: int, deletes: string -> CallResult, fires: seq<int>)
    requires AllNameable(fires) && Ahead(s, views, fires) && mid in views
    requires exists view :: view in views && Arranged(order, view, s)
    ensures var after := Pruned(mid, order, keep, deletes);
            SameClaims(s, mid, after, fires) && Ahead(s, views + [after], fires)
  {
    hide BackupName, Renderable;
    var after := Pruned(mid, order, keep, deletes);
    var view :| view in views && Arranged(order, view, s);
    var victims := Victims(Outline(order), EffectiveKeep(keep));
    GoneAreVictims(victims, deletes);
    forall n | n in victims
      ensures Own(view, n, s)
    {
      VictimIsOwn(view, s, order, EffectiveKeep(keep), n);
    }
    forall i | 0 <= i < |fires|
      ensures BackupName(s, fires[i]) !in victims
    {
      assert !Own(view, BackupName(s, fires[i]), s);
    }
    forall i | 0 <= i < |fires|
      ensures Claimed(s, mid, fires[i]) <==> Claimed(s, after, fires[i])
      ensures !Own(after, BackupName(s, fires[i]), s)
    {
      assert !Own(mid, BackupName(s, fires[i]), s);
    }
  }

  lemma VictimIsOwn(view: map<string, Backup>, s: string, order: seq<NamedBackup>, keep: nat, n: string)
    requires Arranged(order, view, s) && n in Victims(Outline(order), keep)
    ensures Own(view, n, s)
  {
    var items := Outline(order);
    VictimsAreTheTail(items, keep);
    ExpendableFilters(items);
    var e := Expendable(items);
    var i :| Min(keep, |e|) <= i < |e| && e[i].name == n;
    assert e[i] in items;
    OutlineComesFromView(view, s, order, e[i]);
  }

  /** Each such reconcile deals with the oldest fire time of the backlog: it creates its Backup unless the name is
      taken, creates nothing else, and moves on. */
  lemma DrainStep(lib: Library, c: Cron, s: string, now: int, w: World, w': World)
    requires Lawful(c) && Drains(lib, c, s, now, w, w') && w.backups in w.history
    requires var b := Backlog(c, now, w);
             Increasing(b) && AllNameable(b) && (b != [] ==> Ahead(s, w.history, b[1..]))
    ensures w'.backups in w'.history
    ensures var b := Backlog(c, now, w);
            && Backlog(c, now, w') == (if b == [] then [] else b[1..])
            && w'.log == w.log + (if b == [] || Claimed(s, w.backups, b[0]) then [] else [b[0]])
            && (b != [] ==> SameClaims(s, w.backups, w'.backups, b[1..]) && Ahead(s, w'.history, b[1..]))
  {
    hide BackupName, Renderable, Ahead, SameClaims, ReconcileSchedule, Arranged;
    var a :| Reconciled(lib, c, s, w, w', a) && a.now == now && a.create.Acknowledged? && a.write.TookEffect();
    ReconcileUnfolds(lib, c, s, w, a);
    var b := Backlog(c, now, w);
    if b != [] {
      var fire := NextFire(c, now, w.Last());
      assert b[0] == fire && Fires(c, w.schedule, now);
      NextIsLeastFire(c, Reference(now, w.Last()), fire);
      assert Backlog(c, now, w') == b[1..];
      SpawnClaims(c, s, w, a, b[1..]);
      StepClaims(lib, c, s, w, w', a, b[1..]);
    }
  }

  lemma StepClaims(lib: Library, c: Cron, s: string, w: World, w': World, a: Answers, fires: seq<int>)
    requires Lawful(c) && Reconciled(lib, c, s, w, w', a) && AllNameable(fires)
    requires var mid := AfterSpawn(c, s, w, a);
             SameClaims(s, w.backups, mid, fires) && Ahead(s, w.history + [mid], fires)
    ensures SameClaims(s, w.backups, w'.backups, fires) && Ahead(s, w'.history, fires)
  {
    hide BackupName, Renderable, ReconcileSchedule, Arranged, Pruned, AfterSpawn;
    ReconcileUnfolds(lib, c, s, w, a);
    var mid := AfterSpawn(c, s, w, a);
    var views := w.history + [mid];
    assert w'.history == views + [w'.backups];
    if w'.backups != mid {
      var view :| (view in w.history || view == mid) && Arranged(a.list.value, view, s);
      assert view in views;
      PassClaims(s, views, mid, a.list.value, w.schedule.spec.keep, a.deletes, fires);
    }
  }

  // ---------------------------------------------------------------------------------------------
  // Many
  // ---------------------------------------------------------------------------------------------

  lemma DrainSplits(lib: Library, c: Cron, s: string, now: int, run: seq<World>)
    requires IsDrain(lib, c, s, now, run) && |run| > 1
    ensures var n := |run| - 1;
            IsDrain(lib, c, s, now, run[..n]) && Drains(lib, c, s, now, run[n - 1], run[n])
  {
    hide Drains;
  }

  lemma {:induction false} DrainPrefix(lib: Library, c: Cron, s: string, now: int, run: seq<World>)
    requires |run| > 0 && Lawful(c) && IsDrain(lib, c, s, now, run) && run[0].backups in run[0].history
    requires var b := Backlog(c, now, run[0]);
             Increasing(b) && AllNameable(b) && (b != [] ==> Ahead(s, run[0].history, b[1..]))
    ensures var n, b := |run| - 1, Backlog(c, now, run[0]);
            var k := Min(n, |b|);
            && run[n].backups in run[n].history
            && Backlog(c, now, run[n]) == b[k..]
            && run[n].log == run[0].log + Unclaimed(s, run[0].backups, b[..k])
            && SameClaims(s, run[0].backups, run[n].backups, b[k..])
            && (k < |b| ==> Ahead(s, run[n].history, b[k + 1..]))
  {
    hide BackupName, Renderable, Backlog, Claimed, Drains, FireTimes, IsDrain, Lawful, Ahead;
    var n, b := |run| - 1, Backlog(c, now, run[0]);
    if n > 0 {
      DrainSplits(lib, c, s, now, run);
      DrainPrefix(lib, c, s, now, run[..n]);
      var k := Min(n - 1, |b|);
      DrainStep(lib, c, s, now, run[n - 1], run[n]);
      if k < |b| {
        NextClaim(s, run[0].backups, run[n - 1].backups, run[n].backups, b, k);
        assert b[k..][1..] == b[k + 1..];
        if k + 1 < |b| {
          AheadShrinks(s, run[n].history, b[k + 1..]);
          assert b[k + 1..][1..] == b[k + 2..];
        }
      }
    }
  }

  lemma NextClaim(s: string, start: map<string, Backup>, before: map<string, Backup>, after: map<string, Backup>,
                  b: seq<int>, k: nat)
    requires AllNameable(b) && k < |b|
    requires SameClaims(s, start, before, b[k..]) && SameClaims(s, before, after, b[k + 1..])
    ensures SameClaims(s, start, after, b[k + 1..])
    ensures Unclaimed(s, start, b[..k + 1])
            == Unclaimed(s, start, b[..k]) + if Claimed(s, before, b[k]) then [] else [b[k]]
  {
    hide Claimed;
    assert b[..k + 1][..k] == b[..k];
    assert b[k..][0] == b[k];
    var left, rest := b[k..], b[k + 1..];
    forall i | 0 <= i < |rest|
      ensures Claimed(s, start, rest[i]) <==> Claimed(s, after, rest[i])
    {
      assert left[i + 1] == rest[i];
    }
  }

  lemma AheadShrinks(s: string, views: seq<map<string, Backup>>, fires: seq<int>)
    requires AllNameable(fires) && Ahead(s, views, fires) && fires != []
    ensures Ahead(s, views, fires[1..])
  {
    hide BackupName;
    forall view, i | view in views && 0 <= i < |fires[1..]|
      ensures !Own(view, BackupName(s, fires[1..][i]), s)
    {
      assert fires[1..][i] == fires[i + 1];
    }
  }

  // ---------------------------------------------------------------------------------------------
  // From a reachable state
  // ---------------------------------------------------------------------------------------------

  /** Fire times due within the clock's range have names. */
  lemma BacklogIsNameable(c: Cron, now: int, w: World)
    requires Lawful(c) && Endless(c) && ClockInRange(now)
    ensures var b := Backlog(c, now, w);
            && Increasing(b) && |b| <= 1440 && AllNameable(b)
            && (forall u :: u in b <==> Reference(now, w.Last()) < u <= now && IsFire(c, u))
  {
    var last := Reference(now, w.Last());
    if last <= now {
      FireTimesAreExact(c, last, now);
      var b := Backlog(c, now, w);
      forall i | 0 <= i < |b|
        ensures Nameable(b[i])
      {
        assert b[i] in b;
        NextIsLeastFire(c, b[i] - 1, b[i]);
        DayOfIsMonotone(b[i], now);
        DayOfIsMonotone(ZERO_TIME, b[i]);
      }
    } else {
      NextIsLeastFire(c, last, c.next(last).value);
    }
  }

  /** In a reachable state only the oldest fire time of the backlog can already have been created: the reconcile that
      created it lost its status write. */
  lemma RestIsAhead(c: Cron, s: string, room: nat, now: int, w: World)
    requires Lawful(c) && Endless(c) && ClockInRange(now) && w.now <= now && Inv(c, s, room, w)
    ensures var b := Backlog(c, now, w);
            && AllNameable(b)
            && (b != [] ==> Ahead(s, w.history, b[1..]))
  {
    hide BackupName, Renderable, Born, Leads, Ahead;
    BacklogIsNameable(c, now, w);
    var b := Backlog(c, now, w);
    if b != [] {
      NextFireIsMonotone(c, w.now, w.Last(), now, w.Last());
      assert b[0] == NextFire(c, now, w.Last());
      forall i | 0 <= i < |b[1..]|
        ensures Nameable(b[1..][i]) && b[1..][i] !in w.log
      {
        assert b[1..][i] == b[i + 1] && b[0] < b[i + 1];
      }
      UnseenIsAhead(s, w.history, w.log, b[1..]);
    }
  }

  lemma UnseenIsAhead(s: string, views: seq<map<string, Backup>>, log: seq<int>, fires: seq<int>)
    requires Born(views, s, log) && AllNameable(fires) && forall i :: 0 <= i < |fires| ==> fires[i] !in log
    ensures Ahead(s, views, fires)
  {
    hide BackupName, Born;
    forall i | 0 <= i < |fires|
      ensures forall view :: view in views ==> !Own(view, BackupName(s, fires[i]), s)
    {
      NewNameIsUnseen(views, s, log, fires[i]);
    }
  }

  /** No Backup without the schedule's label bears the name of one of these fire times. */
  ghost predicate NoneForeign(s: string, backups: map<string, Backup>, fires: seq<int>)
    requires AllNameable(fires)
  {
    forall i :: 0 <= i < |fires| && Claimed(s, backups, fires[i]) ==> Own(backups, BackupName(s, fires[i]), s)
  }

  lemma OnlyTheHeadIsClaimed(s: string, w: World, b: seq<int>)
    requires AllNameable(b) && NoneForeign(s, w.backups, b) && w.backups in w.history
    requires b != [] ==> Ahead(s, w.history, b[1..])
    ensures Unclaimed(s, w.backups, b) == if b != [] && Claimed(s, w.backups, b[0]) then b[1..] else b
  {
    hide BackupName;
    if b != [] {
      forall i | 0 < i < |b|
        ensures !Claimed(s, w.backups, b[i])
      {
        assert b[1..][i - 1] == b[i];
      }
      TailUnclaimed(s, w.backups, b);
    }
  }

  lemma {:induction false} TailUnclaimed(s: string, backups: map<string, Backup>, b: seq<int>)
    requires AllNameable(b) && b != [] && forall i :: 0 < i < |b| ==> !Claimed(s, backups, b[i])
    ensures Unclaimed(s, backups, b) == if Claimed(s, backups, b[0]) then b[1..] else b
  {
    hide Claimed;
    var n := |b| - 1;
    if n > 0 {
      TailUnclaimed(s, backups, b[..n]);
      assert b == b[..n] + [b[n]];
      assert b[1..] == b[..n][1..] + [b[n]];
    } else {
      assert b[..0] == [];
    }
  }

  /** Catching up from any reachable state: n reconciles at a fixed clock deal with the first n fire times of
      (max(last, now - 24h), now] in increasing order, creating each one whose name is free.  The interval holds at most
      1440 of them, so 1440 reconciles leave nothing due.  Unless a stranger took a name, everything is created but
      possibly the oldest, whose Backup exists when the reconcile that created it lost its status write. */
  lemma CatchUpIsCompleteAndBounded(lib: Library, c: Cron, s: string, room: nat, now: int, past: seq<World>,
                                    run: seq<World>)
    requires IsRun(lib, c, s, room, past) && Denotes(lib, past[|past| - 1], c)
    requires |run| > 0 && IsDrain(lib, c, s, now, run) && run[0] == past[|past| - 1]
    requires ClockInRange(now) && run[0].now <= now
    ensures var w, w', b := run[0], run[|run| - 1], Backlog(c, now, run[0]);
            && Increasing(b) && |b| <= 1440 && AllNameable(b)
            && (forall u :: u in b <==> Reference(now, w.Last()) < u <= now && IsFire(c, u))
            && w'.log == w.log + Unclaimed(s, w.backups, b[..Min(|run| - 1, |b|)])
            && (|run| > 1440 ==> w'.log == w.log + Unclaimed(s, w.backups, b) && !Due(c, now, w'.Last()))
            && (NoneForeign(s, w.backups, b) ==>
                  Unclaimed(s, w.backups, b) == if b != [] && Claimed(s, w.backups, b[0]) then b[1..] else b)
  {
    hide IsRun, IsDrain, Inv, Claimed, Unclaimed, Nameable, Ahead;
    var w, n := run[0], |run| - 1;
    var b := Backlog(c, now, w);
    FireTimesAreCreatedInOrder(lib, c, s, room, past);
    BacklogIsNameable(c, now, w);
    RestIsAhead(c, s, room, now, w);
    BackupsAreInHistory(c, s, room, w);
    DrainPrefix(lib, c, s, now, run);
    assert b[..|b|] == b;
    if NoneForeign(s, w.backups, b) {
      OnlyTheHeadIsClaimed(s, w, b);
    }
  }
}
