/** Status conditions: the list every reconciler edits in place, and the map it stands for. */
module Conditions {
  import opened Prelude

  datatype ConditionStatus = ConditionTrue | ConditionFalse | ConditionUnknown

  datatype Condition = Condition(
    kind: string,
    status: ConditionStatus,
    reason: string,
    message: string,
    lastTransitionTime: int,
    observedGeneration: int)

  /** One call of a reconciler's condition setter. */
  datatype Change = Change(
    kind: string,
    status: ConditionStatus,
    reason: string,
    message: string,
    now: int,
    generation: int)

  predicate DistinctKinds(cs: seq<Condition>) {
    forall i, j :: 0 <= i < j < |cs| ==> cs[i].kind != cs[j].kind
  }

  /** The entry a change leaves behind, given the entry (if any) it replaces. */
  function Merge(before: Option<Condition>, c: Change): Condition {
    var stamp := if before.Some? && before.value.status == c.status then before.value.lastTransitionTime else c.now;
    Condition(c.kind, c.status, c.reason, c.message, stamp, c.generation)
  }

  /** Position of the first condition of a kind, or the length of the list. */
  function IndexOf(cs: seq<Condition>, kind: string): (i: nat)
    ensures i <= |cs|
    ensures forall j :: 0 <= j < i ==> cs[j].kind != kind
    ensures i < |cs| ==> cs[i].kind == kind
  {
    if cs == [] || cs[0].kind == kind then 0 else 1 + IndexOf(cs[1..], kind)
  }

  function Find(cs: seq<Condition>, kind: string): Option<Condition> {
    var i := IndexOf(cs, kind);
    if i < |cs| then Some(cs[i]) else None
  }

  predicate Holds(cs: seq<Condition>, kind: string) {
    Find(cs, kind).Some? && Find(cs, kind).value.status == ConditionTrue
  }

  function Put(cs: seq<Condition>, c: Change): seq<Condition> {
    var i := IndexOf(cs, c.kind);
    if i < |cs| then cs[i := Merge(Some(cs[i]), c)] else cs + [Merge(None, c)]
  }

  /** The condition slice of an object a reconciler has read. */
  class ConditionList {
    var items: seq<Condition>
    const generation: int

    constructor (items: seq<Condition>, generation: int)
      ensures this.items == items && this.generation == generation
    {
      this.items := items;
      this.generation := generation;
    }

    method Set(kind: string, status: ConditionStatus, reason: string, message: string, now: int)
      modifies this
      ensures items == Put(old(items), Change(kind, status, reason, message, now, generation))
    {
      var i := 0;
      while i < |items|
        invariant 0 <= i <= |items|
        invariant items == old(items)
        invariant forall j :: 0 <= j < i ==> items[j].kind != kind
      {
        var c := items[i];
        if c.kind == kind {
          if c.status != status {
            items := items[i := items[i].(lastTransitionTime := now)];
          }
          items := items[i := items[i].(status := status, reason := reason, message := message,
                                        observedGeneration := generation)];
          return;
        }
        i := i + 1;
      }
      items := items + [Condition(kind, status, reason, message, now, generation)];
    }
  }

  // ---------------------------------------------------------------------------------------------
  // The list refines a map
  // ---------------------------------------------------------------------------------------------

  /** After a change: kinds stay distinct, the changed kind holds the merged entry, and every other
      entry is where it was. */
  lemma PutRefinesMapUpdate(cs: seq<Condition>, c: Change, other: string)
    requires DistinctKinds(cs)
    ensures DistinctKinds(Put(cs, c))
    ensures Find(Put(cs, c), c.kind) == Some(Merge(Find(cs, c.kind), c))
    ensures other != c.kind ==> Find(Put(cs, c), other) == Find(cs, other)
    ensures |cs| <= |Put(cs, c)| <= |cs| + 1
    ensures forall i :: 0 <= i < |cs| && cs[i].kind != c.kind ==> Put(cs, c)[i] == cs[i]
  {
    var after := Put(cs, c);
    var i, j := IndexOf(cs, c.kind), IndexOf(after, c.kind);
    assert after[i].kind == c.kind;
    assert i == j;
    var k, l := IndexOf(cs, other), IndexOf(after, other);
    if other != c.kind {
      if k < |cs| { assert after[k] == cs[k]; }
      if l < |after| { assert l != i; assert after[l] == cs[l]; }
    }
  }

  /** The same for the changed kind and for any other one, on lists that may repeat kinds. */
  lemma PutStaysPut(cs: seq<Condition>, c: Change)
    ensures IndexOf(Put(cs, c), c.kind) == IndexOf(cs, c.kind)
    ensures Find(Put(cs, c), c.kind) == Some(Merge(Find(cs, c.kind), c))
  {
    var after, i := Put(cs, c), IndexOf(cs, c.kind);
    assert after[i].kind == c.kind;
    assert forall l :: 0 <= l < i ==> after[l] == cs[l];
  }

  lemma PutKeepsOthers(cs: seq<Condition>, c: Change, other: string)
    requires other != c.kind
    ensures Find(Put(cs, c), other) == Find(cs, other)
  {
    var after := Put(cs, c);
    var i, j := IndexOf(cs, other), IndexOf(after, other);
    if i < |cs| { assert after[i] == cs[i]; }
    if j < |after| { assert j < |cs| && after[j] == cs[j]; }
  }

  /** A kind has been set: everything about it is new, except that its transition time stays when the status does. */
  predicate Becomes(before: seq<Condition>, after: seq<Condition>, kind: string, s: ConditionStatus, reason: string,
                    message: string, now: int, generation: int) {
    var was := Find(before, kind);
    var stamp := if was.Some? && was.value.status == s then was.value.lastTransitionTime else now;
    Find(after, kind) == Some(Condition(kind, s, reason, message, stamp, generation))
  }

  ghost predicate SameBut(before: seq<Condition>, after: seq<Condition>, kinds: set<string>) {
    forall kind :: kind !in kinds ==> Find(after, kind) == Find(before, kind)
  }

  lemma PutBecomes(cs: seq<Condition>, c: Change)
    ensures Becomes(cs, Put(cs, c), c.kind, c.status, c.reason, c.message, c.now, c.generation)
    ensures SameBut(cs, Put(cs, c), {c.kind})
  {
    hide Find, Put;
    PutStaysPut(cs, c);
    forall kind | kind != c.kind
      ensures Find(Put(cs, c), kind) == Find(cs, kind)
    {
      PutKeepsOthers(cs, c, kind);
    }
  }

  function Replay(cs: seq<Condition>, changes: seq<Change>): seq<Condition> {
    if changes == [] then cs
    else Put(Replay(cs, changes[..|changes| - 1]), changes[|changes| - 1])
  }

  /** The status the latest change of a kind asked for, falling back to the list the object started with. */
  function LatestStatus(cs: seq<Condition>, changes: seq<Change>, kind: string): Option<ConditionStatus> {
    if changes == [] then
      (if Find(cs, kind).Some? then Some(Find(cs, kind).value.status) else None)
    else
      var c := changes[|changes| - 1];
      if c.kind == kind then Some(c.status) else LatestStatus(cs, changes[..|changes| - 1], kind)
  }

  /** Change number k gave its kind a status it did not have just before (or introduced it). */
  predicate Flips(cs: seq<Condition>, changes: seq<Change>, k: nat)
    requires k < |changes|
  {
    LatestStatus(cs, changes[..k], changes[k].kind) != Some(changes[k].status)
  }

  /** Change number k is the last one that flipped the kind; k == -1 when none did. */
  ghost predicate LastFlip(cs: seq<Condition>, changes: seq<Change>, kind: string, k: int)
    requires -1 <= k < |changes|
  {
    && (k >= 0 ==> changes[k].kind == kind && Flips(cs, changes, k))
    && forall j: nat :: k < j < |changes| && changes[j].kind == kind ==> !Flips(cs, changes, j)
  }

  /** The time recorded for a kind is that of the last change that flipped it, or the one the object
      started with when no change did. */
  ghost predicate StampedByLastFlip(cs: seq<Condition>, changes: seq<Change>, kind: string, stamp: int) {
    exists k ::
      && -1 <= k < |changes|
      && LastFlip(cs, changes, kind, k)
      && (k >= 0 ==> changes[k].now == stamp)
      && (k < 0 ==> Find(cs, kind).Some? && Find(cs, kind).value.lastTransitionTime == stamp)
  }

  /** Whatever sequence of setter calls is applied to a list of distinct kinds, the list has one entry
      per kind ever set, carrying the latest status and the time of the last real transition. */
  lemma {:induction false} TransitionTimesOverAnyHistory(cs: seq<Condition>, changes: seq<Change>, kind: string)
    requires DistinctKinds(cs)
    ensures DistinctKinds(Replay(cs, changes))
    ensures var entry := Find(Replay(cs, changes), kind);
            && entry.Some? == LatestStatus(cs, changes, kind).Some?
            && (entry.Some? ==>
                  && entry.value.status == LatestStatus(cs, changes, kind).value
                  && StampedByLastFlip(cs, changes, kind, entry.value.lastTransitionTime))
  {
    if changes == [] {
      if Find(cs, kind).Some? {
        assert LastFlip(cs, changes, kind, -1);
      }
    } else {
      var n := |changes| - 1;
      var rest, c := changes[..n], changes[n];
      TransitionTimesOverAnyHistory(cs, rest, kind);
      PutRefinesMapUpdate(Replay(cs, rest), c, kind);
      var before := Find(Replay(cs, rest), kind);
      if c.kind == kind && Flips(cs, changes, n) {
        assert LastFlip(cs, changes, kind, n);
      } else if before.Some? {
        CarryStamp(cs, changes, kind, before.value.lastTransitionTime);
      }
    }
  }

  /** Change number k is the latest one of a kind. */
  predicate LatestOf(changes: seq<Change>, kind: string, k: int) {
    0 <= k < |changes| && changes[k].kind == kind && forall j :: k < j < |changes| ==> changes[j].kind != kind
  }

  predicate Reports(entry: Option<Condition>, c: Change) {
    && entry.Some?
    && entry.value.kind == c.kind && entry.value.status == c.status && entry.value.reason == c.reason
    && entry.value.message == c.message && entry.value.observedGeneration == c.generation
  }

  /** Whatever the history, a kind reports what the latest call for it said: status, reason, message and the generation
      observed; without such a call its entry is the one the object started with. */
  lemma {:induction false} LatestChangeIsReported(cs: seq<Condition>, changes: seq<Change>, kind: string)
    requires DistinctKinds(cs)
    ensures forall k :: LatestOf(changes, kind, k) ==> Reports(Find(Replay(cs, changes), kind), changes[k])
    ensures (forall k :: 0 <= k < |changes| ==> changes[k].kind != kind) ==>
              Find(Replay(cs, changes), kind) == Find(cs, kind)
  {
    hide Find, Put, Merge, Reports, LatestOf, DistinctKinds;
    if changes != [] {
      var n := |changes| - 1;
      var before, c := Replay(cs, changes[..n]), changes[n];
      LatestChangeIsReported(cs, changes[..n], kind);
      TransitionTimesOverAnyHistory(cs, changes[..n], kind);
      PutRefinesMapUpdate(before, c, kind);
      MergeReports(before, c);
      LatestOfMore(changes, kind);
    } else {
      LatestOfNone(kind);
    }
  }

  lemma MergeReports(cs: seq<Condition>, c: Change)
    ensures Reports(Some(Merge(Find(cs, c.kind), c)), c)
  {
  }

  lemma LatestOfNone(kind: string)
    ensures forall k :: !LatestOf([], kind, k)
  {
  }

  lemma LatestOfMore(changes: seq<Change>, kind: string)
    requires changes != []
    ensures var n := |changes| - 1;
            forall k :: LatestOf(changes, kind, k) ==>
              && 0 <= k <= n
              && if changes[n].kind == kind then k == n
                 else k < n && LatestOf(changes[..n], kind, k) && changes[..n][k] == changes[k]
  {
  }

  lemma FlipsOfPrefix(cs: seq<Condition>, changes: seq<Change>, n: nat, j: nat)
    requires j < n <= |changes|
    ensures Flips(cs, changes, j) == Flips(cs, changes[..n], j)
  {
    hide LatestStatus;
    assert changes[..n][..j] == changes[..j];
  }

  /** A last change that flips nothing of this kind leaves the kind's transition time explained as before. */
  lemma CarryStamp(cs: seq<Condition>, changes: seq<Change>, kind: string, stamp: int)
    requires |changes| > 0
    requires changes[|changes| - 1].kind == kind ==> !Flips(cs, changes, |changes| - 1)
    requires StampedByLastFlip(cs, changes[..|changes| - 1], kind, stamp)
    ensures StampedByLastFlip(cs, changes, kind, stamp)
  {
    hide LatestStatus, Find, Flips;
    var rest := changes[..|changes| - 1];
    forall j: nat | j < |rest|
      ensures Flips(cs, changes, j) == Flips(cs, rest, j)
    {
      FlipsOfPrefix(cs, changes, |changes| - 1, j);
    }
    var k :| -1 <= k < |rest| && LastFlip(cs, rest, kind, k)
             && (k >= 0 ==> rest[k].now == stamp)
             && (k < 0 ==> Find(cs, kind).Some? && Find(cs, kind).value.lastTransitionTime == stamp);
    assert LastFlip(cs, changes, kind, k);
  }
}
