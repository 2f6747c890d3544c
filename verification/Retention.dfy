/** Keep-N retention: the pass over one list of children, and what survives any interleaving of creations
    and passes, however stale the lists are. */
module Retention {
  import opened Prelude

  /** What retention looks at in a labelled Backup. */
  datatype Child = Child(name: string, created: int, retainForever: bool)

  predicate NewestFirst(items: seq<Child>) {
    forall i, j :: 0 <= i < j < |items| ==> items[i].created >= items[j].created
  }

  /** The slots retention fills; an unset or negative `keep` falls back to the schema's default. */
  function EffectiveKeep(keep: int): (k: nat)
    ensures k >= 1
  {
    if keep <= 0 then 7 else keep
  }

  // ---------------------------------------------------------------------------------------------
  // One pass
  // ---------------------------------------------------------------------------------------------

  /** Names the pass asks to delete, in the order it asks, with `room` slots still free. */
  function Victims(items: seq<Child>, room: nat): seq<string> {
    if items == [] then []
    else if items[0].retainForever then Victims(items[1..], room)
    else if room > 0 then Victims(items[1..], room - 1)
    else [items[0].name] + Victims(items[1..], 0)
  }

  /** Names that are gone after asking for these deletions in turn, stopping at the first reported error. */
  function Gone(victims: seq<string>, deletes: string -> CallResult): set<string> {
    if victims == [] then {}
    else match deletes(victims[0])
      case Acknowledged => {victims[0]} + Gone(victims[1..], deletes)
      case Unacknowledged => {victims[0]}
      case Lost => {}
  }

  /** Children subject to retention. */
  function Expendable(items: seq<Child>): seq<Child> {
    if items == [] then []
    else (if items[0].retainForever then [] else [items[0]]) + Expendable(items[1..])
  }

  function Names(items: seq<Child>): (names: seq<string>)
    ensures |names| == |items|
    ensures forall i :: 0 <= i < |items| ==> names[i] == items[i].name
  {
    if items == [] then [] else [items[0].name] + Names(items[1..])
  }

  /** The pass spares the first `room` expendable children and asks to delete every later one. */
  lemma {:induction false} VictimsAreTheTail(items: seq<Child>, room: nat)
    ensures var e := Expendable(items); Victims(items, room) == Names(e[Min(room, |e|)..])
  {
    if items != [] {
      var e, rest := Expendable(items), Expendable(items[1..]);
      if items[0].retainForever {
        VictimsAreTheTail(items[1..], room);
        assert e == rest;
      } else if room > 0 {
        VictimsAreTheTail(items[1..], room - 1);
        assert e[Min(room, |e|)..] == rest[Min(room - 1, |rest|)..];
      } else {
        VictimsAreTheTail(items[1..], 0);
        assert e[0..] == [items[0]] + rest;
        assert rest[0..] == rest;
      }
    }
  }

  lemma {:induction false} GoneAreVictims(victims: seq<string>, deletes: string -> CallResult)
    ensures Gone(victims, deletes) <= Elements(victims)
    ensures (forall n :: deletes(n) == Acknowledged) ==> Gone(victims, deletes) == Elements(victims)
  {
    if victims != [] {
      GoneAreVictims(victims[1..], deletes);
      assert Elements(victims) == {victims[0]} + Elements(victims[1..]);
    }
  }

  /** The pass deletes victims in turn up to the first call that is not acknowledged, and that one only if it took
      effect all the same. */
  lemma {:induction false} PassStopsAtError(victims: seq<string>, deletes: string -> CallResult) returns (n: nat)
    ensures n <= |victims| && forall i :: 0 <= i < n ==> deletes(victims[i]) == Acknowledged
    ensures n < |victims| ==> deletes(victims[n]) != Acknowledged
    ensures Gone(victims, deletes) == Elements(victims[..n])
              + if n < |victims| && deletes(victims[n]) == Unacknowledged then {victims[n]} else {}
  {
    n := 0;
    if victims != [] && deletes(victims[0]) == Acknowledged {
      n := PassStopsAtError(victims[1..], deletes);
      n := n + 1;
      assert victims[..n] == [victims[0]] + victims[1..][..n - 1];
      assert Elements(victims[..n]) == {victims[0]} + Elements(victims[1..][..n - 1]);
    } else {
      assert Elements(victims[..0]) == {};
    }
  }

  lemma {:induction false} ExpendableMembers(items: seq<Child>)
    ensures forall x :: x in Expendable(items) <==> x in items && !x.retainForever
  {
    if items != [] {
      ExpendableMembers(items[1..]);
      assert items == [items[0]] + items[1..];
    }
  }

  lemma {:induction false} ExpendableStaysDistinct(items: seq<Child>)
    requires Distinct(items)
    ensures Distinct(Expendable(items))
  {
    if items != [] {
      ExpendableStaysDistinct(items[1..]);
      ExpendableMembers(items[1..]);
      assert items[0] !in items[1..];
    }
  }

  lemma {:induction false} ExpendableStaysOrdered(items: seq<Child>)
    requires NewestFirst(items)
    ensures NewestFirst(Expendable(items))
  {
    if items != [] {
      var rest := Expendable(items[1..]);
      ExpendableStaysOrdered(items[1..]);
      ExpendableMembers(items[1..]);
      forall j | 0 <= j < |rest|
        ensures items[0].created >= rest[j].created
      {
        assert rest[j] in items[1..];
      }
    }
  }

  /** Filtering keeps order and multiplicity, and drops exactly the protected children. */
  lemma ExpendableFilters(items: seq<Child>)
    ensures forall x :: x in Expendable(items) <==> x in items && !x.retainForever
    ensures Distinct(items) ==> Distinct(Expendable(items))
    ensures NewestFirst(items) ==> NewestFirst(Expendable(items))
  {
    ExpendableMembers(items);
    if Distinct(items) { ExpendableStaysDistinct(items); }
    if NewestFirst(items) { ExpendableStaysOrdered(items); }
  }

  // ---------------------------------------------------------------------------------------------
  // Runs of creations and passes
  // ---------------------------------------------------------------------------------------------

  /** Every labelled Backup ever created, and the names that exist now. */
  datatype Ledger = Ledger(ever: set<Child>, live: set<string>)
  {
    /** A name was used once and no two creations share a timestamp. */
    ghost predicate Clean() {
      forall x, y :: x in ever && y in ever && x != y ==>
        x.name != y.name && x.created != y.created
    }
  }

  /** The expendable children of a set created after a given one. */
  ghost function Newer(all: set<Child>, x: Child): set<Child> {
    set y | y in all && !y.retainForever && y.created > x.created
  }

  ghost predicate Protected(all: set<Child>, x: Child, keep: nat) {
    x.retainForever || |Newer(all, x)| < keep
  }

  ghost predicate Created(l: Ledger, l': Ledger) {
    exists x: Child ::
      && (forall y :: y in l.ever ==>
            y.name != x.name && y.created != x.created)
      && l' == Ledger(l.ever + {x}, l.live + {x.name})
  }

  /** A pass over some list of children that exist or once existed; a past snapshot is one such list. */
  ghost predicate Passed(l: Ledger, l': Ledger, keep: nat) {
    exists order: seq<Child>, deletes: string -> CallResult ::
      PassedOver(l, l', keep, order, deletes)
  }

  ghost predicate PassedOver(l: Ledger, l': Ledger, keep: nat, order: seq<Child>, deletes: string -> CallResult) {
    && Distinct(order) && NewestFirst(order) && Elements(order) <= l.ever
    && l' == Ledger(l.ever, l.live - Gone(Victims(order, keep), deletes))
  }

  ghost predicate IsLedgerRun(run: seq<Ledger>, keep: nat) {
    && |run| > 0
    && run[0] == Ledger({}, {})
    && forall i :: 0 <= i < |run| - 1 ==> Created(run[i], run[i + 1]) || Passed(run[i], run[i + 1], keep)
  }

  ghost predicate Safe(l: Ledger, keep: nat) {
    && l.Clean()
    && l.live <= (set x | x in l.ever :: x.name)
    && forall x :: x in l.ever && Protected(l.ever, x, keep) ==> x.name in l.live
  }

  lemma EarlierIsNewer(ever: set<Child>, e: seq<Child>, i: nat, j: nat)
    requires Ledger(ever, {}).Clean() && Elements(e) <= ever
    requires Distinct(e) && NewestFirst(e) && j < i < |e|
    requires forall x :: x in e ==> !x.retainForever
    ensures e[j] in Newer(ever, e[i])
  {
    assert e[i] in Elements(e) && e[j] in Elements(e);
    assert e[i] != e[j];
  }

  /** A child a pass deletes had `keep` expendable children created after it. */
  lemma VictimHasKeepNewer(ever: set<Child>, order: seq<Child>, keep: nat, x: Child)
    requires Ledger(ever, {}).Clean()
    requires Distinct(order) && NewestFirst(order) && Elements(order) <= ever
    requires x in ever && x.name in Victims(order, keep)
    ensures !Protected(ever, x, keep)
  {
    VictimsAreTheTail(order, keep);
    ExpendableFilters(order);
    var e := Expendable(order);
    var i :| Min(keep, |e|) <= i < |e| && e[i].name == x.name;
    assert e[i] in Elements(order);
    assert e[i] == x;
    assert Elements(e) <= ever by {
      assert forall y :: y in Elements(e) ==> y in Elements(order);
    }
    forall j | 0 <= j < keep
      ensures e[j] in Newer(ever, x)
    {
      EarlierIsNewer(ever, e, i, j);
    }
    CutDistinct(e, keep);
    SubsetSize(Elements(e[..keep]), Newer(ever, x));
  }

  lemma CreationIsSafe(l: Ledger, l': Ledger, keep: nat)
    requires Safe(l, keep) && Created(l, l')
    ensures Safe(l', keep)
  {
    forall x | x in l.ever && Protected(l'.ever, x, keep)
      ensures Protected(l.ever, x, keep)
    {
      SubsetSize(Newer(l.ever, x), Newer(l'.ever, x));
    }
  }

  lemma PassIsSafe(l: Ledger, l': Ledger, keep: nat)
    requires Safe(l, keep) && Passed(l, l', keep)
    ensures Safe(l', keep)
  {
    var order, deletes :| PassedOver(l, l', keep, order, deletes);
    GoneAreVictims(Victims(order, keep), deletes);
    forall x | x in l.ever && Protected(l.ever, x, keep)
      ensures x.name !in Victims(order, keep)
    {
      if x.name in Victims(order, keep) {
        VictimHasKeepNewer(l.ever, order, keep, x);
      }
    }
  }

  /** However creations and passes interleave, whatever stale or partial lists the passes read and wherever
      a delete error cuts them short, the `keep` newest expendable Backups ever created and every protected
      one still exist. */
  lemma {:induction false} RetentionNeverLosesTheNewest(run: seq<Ledger>, keep: nat)
    requires IsLedgerRun(run, keep)
    ensures Safe(run[|run| - 1], keep)
  {
    var n := |run| - 1;
    if n > 0 {
      assert Created(run[n - 1], run[n]) || Passed(run[n - 1], run[n], keep);
      RetentionNeverLosesTheNewest(run[..n], keep);
      if Created(run[n - 1], run[n]) {
        CreationIsSafe(run[n - 1], run[n], keep);
      } else {
        PassIsSafe(run[n - 1], run[n], keep);
      }
    }
  }

  // ---------------------------------------------------------------------------------------------
  // A pass over a fresh list without errors
  // ---------------------------------------------------------------------------------------------

  ghost function Survivors(items: set<Child>, gone: set<string>): set<Child> {
    set x | x in items && x.name !in gone
  }

  ghost function ExpendableSet(items: set<Child>): set<Child> {
    set x | x in items && !x.retainForever
  }

  /** In a list whose names are distinct, a child's name is a victim exactly when the child lies beyond the
      first `keep` expendable ones. */
  lemma VictimIff(order: seq<Child>, keep: nat, x: Child)
    requires Distinct(order) && x in order
    requires forall y, z :: y in order && z in order && y.name == z.name ==> y == z
    ensures var e := Expendable(order);
            x.name in Victims(order, keep) <==> x in e[Min(keep, |e|)..]
  {
    VictimsAreTheTail(order, keep);
    ExpendableFilters(order);
    var e := Expendable(order);
    var tail := e[Min(keep, |e|)..];
    if x.name in Names(tail) {
      var i :| 0 <= i < |tail| && tail[i].name == x.name;
      assert tail[i] in e && tail[i] in order;
    }
    if x in tail {
      var i :| 0 <= i < |tail| && tail[i] == x;
      assert Names(tail)[i] == x.name;
    }
  }

  /** On a fresh list, with every delete acknowledged, exactly min(keep, n) of the n expendable children
      survive and no protected child is touched; equal timestamps do not matter for the count. */
  lemma FreshPassKeepsExactly(all: set<Child>, order: seq<Child>, keep: nat, deletes: string -> CallResult)
    requires Distinct(order) && Elements(order) == all
    requires forall x, y :: x in all && y in all && x.name == y.name ==> x == y
    requires forall n :: deletes(n) == Acknowledged
    ensures var left := Survivors(all, Gone(Victims(order, keep), deletes));
            && |ExpendableSet(left)| == Min(keep, |ExpendableSet(all)|)
            && (forall x :: x in all && x.retainForever ==> x in left)
  {
    var e := Expendable(order);
    var left := Survivors(all, Gone(Victims(order, keep), deletes));
    ExpendableFilters(order);
    GoneAreVictims(Victims(order, keep), deletes);
    forall x | x in all
      ensures x in order
      ensures x in left <==> x !in e[Min(keep, |e|)..]
    {
      assert x in Elements(order);
      assert forall y :: y in order ==> y in Elements(order);
      VictimIff(order, keep, x);
    }
    SplitCount(all, order, left, keep);
  }

  /** Counting the expendable survivors: they are the first `keep` expendable children of the list. */
  lemma SplitCount(all: set<Child>, order: seq<Child>, left: set<Child>, keep: nat)
    requires Distinct(order) && Elements(order) == all && left <= all
    requires var e := Expendable(order);
             forall x :: x in all ==> (x in left <==> x !in e[Min(keep, |e|)..])
    ensures |ExpendableSet(left)| == Min(keep, |ExpendableSet(all)|)
    ensures forall x :: x in all && x.retainForever ==> x in left
  {
    var e := Expendable(order);
    var cut := Min(keep, |e|);
    ExpendableFilters(order);
    CutDistinct(e, cut);
    forall x
      ensures x in order <==> x in all
    {
      assert x in Elements(order) <==> x in order;
    }
    assert Elements(e) == ExpendableSet(all);
    assert ExpendableSet(left) == Elements(e[..cut]);
  }

  /** Together: a fresh, error-free pass from any reachable state leaves exactly the `keep` newest expendable
      Backups ever created and every protected one. */
  lemma FreshPassConverges(run: seq<Ledger>, keep: nat, order: seq<Child>, deletes: string -> CallResult, after: Ledger)
    requires IsLedgerRun(run, keep)
    requires var l := run[|run| - 1];
             && Elements(order) == (set x | x in l.ever && x.name in l.live)
             && PassedOver(l, after, keep, order, deletes)
    requires forall n :: deletes(n) == Acknowledged
    ensures forall x :: x in after.ever ==> (x.name in after.live <==> Protected(after.ever, x, keep))
  {
    var l := run[|run| - 1];
    RetentionNeverLosesTheNewest(run, keep);
    PassIsSafe(l, after, keep);
    forall x | x in l.ever && x.name in after.live
      ensures Protected(l.ever, x, keep)
    {
      SurvivorIsProtected(l, keep, order, deletes, x);
    }
  }

  lemma SurvivorIsProtected(l: Ledger, keep: nat, order: seq<Child>, deletes: string -> CallResult, x: Child)
    requires Safe(l, keep)
    requires Distinct(order) && NewestFirst(order)
    requires Elements(order) == set y | y in l.ever && y.name in l.live
    requires forall n :: deletes(n) == Acknowledged
    requires x in l.ever && x.name in l.live && x.name !in Gone(Victims(order, keep), deletes)
    ensures Protected(l.ever, x, keep)
  {
    if !x.retainForever && |Newer(l.ever, x)| >= keep {
      GoneAreVictims(Victims(order, keep), deletes);
      ExpendableFilters(order);
      assert x in Elements(order);
      assert forall y :: y in order ==> y in Elements(order);
      VictimIff(order, keep, x);
      var e := Expendable(order);
      var i :| 0 <= i < |e| && e[i] == x;
      assert i < Min(keep, |e|);
      forall y | y in Newer(l.ever, x) && y.name in l.live
        ensures y in e[..i]
      {
        assert y in Elements(order);
        var j :| 0 <= j < |e| && e[j] == y;
      }
      NewerLiveChildren(l, keep, x, e[..i]);
      assert false;
    }
  }

  /** When at least `keep` newer expendable children were created, any list of the live ones among them has
      at least `keep` entries. */
  lemma NewerLiveChildren(l: Ledger, keep: nat, x: Child, newer: seq<Child>)
    requires Safe(l, keep) && x in l.ever && |Newer(l.ever, x)| >= keep
    requires forall y :: y in Newer(l.ever, x) && y.name in l.live ==> y in newer
    ensures |newer| >= keep
  {
    var top := Top(l.ever, Newer(l.ever, x), keep);
    assert top <= Elements(newer);
    SubsetSize(top, Elements(newer));
    ElementsAtMostLength(newer);
  }

  lemma {:induction false} ElementsAtMostLength<T>(xs: seq<T>)
    ensures |Elements(xs)| <= |xs|
  {
    if xs == [] {
      assert Elements(xs) == {};
    } else {
      ElementsAtMostLength(xs[1..]);
      assert Elements(xs) == {xs[0]} + Elements(xs[1..]);
    }
  }

  /** From an upward-closed set of at least `keep` expendable children, the `keep` newest, all protected. */
  lemma {:induction false} Top(ever: set<Child>, upper: set<Child>, keep: nat) returns (top: set<Child>)
    requires Ledger(ever, {}).Clean() && upper <= ever && |upper| >= keep
    requires forall y :: y in upper ==> !y.retainForever && Newer(ever, y) <= upper
    ensures top <= upper && |top| == keep
    ensures forall y :: y in top ==> Protected(ever, y, keep)
  {
    if |upper| == keep {
      top := upper;
      forall y | y in top
        ensures Protected(ever, y, keep)
      {
        assert y !in Newer(ever, y);
        SubsetSize(Newer(ever, y), upper - {y});
      }
    } else {
      var oldest := Oldest(upper);
      top := Top(ever, upper - {oldest}, keep);
    }
  }

  lemma {:induction false} Oldest(all: set<Child>) returns (x: Child)
    requires all != {}
    ensures x in all && forall y :: y in all ==> x.created <= y.created
  {
    x :| x in all;
    if all != {x} {
      var y := Oldest(all - {x});
      if y.created < x.created {
        x := y;
      }
    }
  }
}
