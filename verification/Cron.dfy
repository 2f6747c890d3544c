/** The cron library as the schedule reconciler relies on it, and the choice of the next run to fire. */
module Cron {
  import opened Prelude
  import opened Calendar

  /** A parsed schedule in its time zone; `next` answers None where the library gives up looking. */
  datatype Cron = Cron(next: int -> Option<int>)

  /** What the library promises: the answer is the least fire time strictly after the argument, on a whole
      minute. */
  ghost predicate Lawful(c: Cron) {
    forall t, n :: c.next(t) == Some(n) ==>
      t < n && n % MINUTE == 0 && forall u :: t <= u < n ==> c.next(u) == Some(n)
  }

  predicate IsFire(c: Cron, t: int) {
    c.next(t - 1) == Some(t)
  }

  /** A schedule that always has another fire time. */
  ghost predicate Endless(c: Cron) {
    forall t :: c.next(t).Some?
  }

  /** Go's zero time, 1 January of year 1, which the library hands back when it gives up. */
  const ZERO_TIME: int := FromCivil(Civil(1, 1, 1, 0, 0))

  /** Clocks the model covers: a day or more after the zero time, and before year 10000. */
  predicate ClockInRange(now: int) {
    ZERO_TIME + DAY <= now && Renderable(now)
  }

  /** The later of the last fire and 24 hours ago. */
  function Reference(now: int, last: Option<int>): int {
    if last.Some? && last.value > now - DAY then last.value else now - DAY
  }

  function NextFire(c: Cron, now: int, last: Option<int>): int {
    var n := c.next(Reference(now, last));
    if n.Some? then n.value else ZERO_TIME
  }

  predicate Due(c: Cron, now: int, last: Option<int>) {
    now >= NextFire(c, now, last)
  }

  lemma NextIsLeastFire(c: Cron, t: int, n: int)
    requires Lawful(c) && c.next(t) == Some(n)
    ensures t < n && IsFire(c, n) && n % MINUTE == 0
    ensures forall u :: t < u && IsFire(c, u) ==> n <= u
  {
    assert forall u :: t < u < n && IsFire(c, u) ==> c.next(u - 1) == Some(n);
  }

  lemma NextIsMonotone(c: Cron, t: int, u: int)
    requires Lawful(c) && t <= u && c.next(t).Some? && c.next(u).Some?
    ensures c.next(t).value <= c.next(u).value
  {
    var n := c.next(t).value;
    if u < n {
      assert c.next(u) == Some(n);
    }
  }

  /** The chosen run never moves backwards while neither the clock nor the last fire does. */
  lemma NextFireIsMonotone(c: Cron, now1: int, last1: Option<int>, now2: int, last2: Option<int>)
    requires Lawful(c) && Endless(c) && now1 <= now2
    requires last1.Some? ==> last2.Some? && last1.value <= last2.value
    ensures NextFire(c, now1, last1) <= NextFire(c, now2, last2)
  {
    NextIsMonotone(c, Reference(now1, last1), Reference(now2, last2));
  }

  /** A due run is a fire time of the schedule after the reference point exactly when the library found one;
      otherwise the reconciler takes the zero time for a run that is long overdue. */
  lemma DueRunIsAFireTime(c: Cron, now: int, last: Option<int>)
    requires Lawful(c) && ClockInRange(now) && Due(c, now, last)
    ensures c.next(Reference(now, last)).Some? <==>
            var f := NextFire(c, now, last); IsFire(c, f) && Reference(now, last) < f <= now
  {
    var n := c.next(Reference(now, last));
    if n.Some? {
      NextIsLeastFire(c, Reference(now, last), n.value);
    }
  }

  /** An unsatisfiable schedule: the reconciler still finds a run to fire. */
  lemma UnsatisfiableScheduleFires(now: int, last: Option<int>)
    requires ClockInRange(now)
    ensures var never := Cron(_ => None);
            && Lawful(never) && Due(never, now, last) && NextFire(never, now, last) == ZERO_TIME
            && forall t :: !IsFire(never, t)
  {
  }

  lemma DayOfIsMonotone(a: int, b: int)
    requires a <= b
    ensures a / DAY <= b / DAY && a / MINUTE <= b / MINUTE
  {
  }

  /** Every run that can come due has a name. */
  lemma DueRunIsRenderable(c: Cron, now: int, last: Option<int>)
    requires Lawful(c) && ClockInRange(now) && Due(c, now, last)
    ensures Renderable(NextFire(c, now, last))
    ensures NextFire(c, now, last) % MINUTE == 0
  {
    var f := NextFire(c, now, last);
    if c.next(Reference(now, last)).Some? {
      NextIsLeastFire(c, Reference(now, last), f);
    }
    DayOfIsMonotone(f, now);
    DayOfIsMonotone(ZERO_TIME, f);
  }

  // ---------------------------------------------------------------------------------------------
  // The fire times of an interval
  // ---------------------------------------------------------------------------------------------

  /** Fire times in (after, upto], earliest first. */
  ghost function FireTimes(c: Cron, after: int, upto: int): seq<int>
    requires Lawful(c)
    decreases upto - after
  {
    var n := c.next(after);
    if n.None? || n.value > upto then [] else [n.value] + FireTimes(c, n.value, upto)
  }

  predicate Increasing(xs: seq<int>) {
    forall i, j :: 0 <= i < j < |xs| ==> xs[i] < xs[j]
  }

  /** FireTimes lists exactly the fire times of the interval, in order, and never more than its minutes. */
  lemma {:induction false} FireTimesAreExact(c: Cron, after: int, upto: int)
    requires Lawful(c) && Endless(c) && after <= upto
    ensures Increasing(FireTimes(c, after, upto))
    ensures forall u :: u in FireTimes(c, after, upto) <==> after < u <= upto && IsFire(c, u)
    ensures |FireTimes(c, after, upto)| <= upto / MINUTE - after / MINUTE
    decreases upto - after
  {
    var n := c.next(after).value;
    NextIsLeastFire(c, after, n);
    if n <= upto {
      FireTimesAreExact(c, n, upto);
      var rest := FireTimes(c, n, upto);
      assert forall i :: 0 <= i < |rest| ==> rest[i] in rest;
      assert after / MINUTE + 1 <= n / MINUTE by {
        assert n == (n / MINUTE) * MINUTE;
      }
    } else {
      DayOfIsMonotone(after, upto);
    }
  }
}
