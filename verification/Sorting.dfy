/** Strings in dictionary order, and the one sorted arrangement of a set of them. */
module Sorting {
  import opened Prelude

  predicate Less(a: string, b: string) {
    if b == [] then false
    else if a == [] then true
    else a[0] < b[0] || (a[0] == b[0] && Less(a[1..], b[1..]))
  }

  /** The strings agree up to some place, and there the first one ends or has the smaller character. */
  predicate Precedes(a: string, b: string, i: nat) {
    && i <= |a| && i < |b| && a[..i] == b[..i]
    && (i == |a| || a[i] < b[i])
  }

  lemma {:induction false} LessIsDictionaryOrder(a: string, b: string)
    ensures Less(a, b) <==> exists i: nat :: Precedes(a, b, i)
  {
    if a != [] && b != [] {
      LessIsDictionaryOrder(a[1..], b[1..]);
      if i: nat :| Precedes(a, b, i) {
        if i > 0 {
          assert a[..i][0] == a[0] && b[..i][0] == b[0];
          assert a[1..][..i - 1] == a[..i][1..] && b[1..][..i - 1] == b[..i][1..];
          assert Precedes(a[1..], b[1..], i - 1);
        }
      }
      if Less(a, b) {
        if a[0] < b[0] {
          assert Precedes(a, b, 0);
        } else {
          var i: nat :| Precedes(a[1..], b[1..], i);
          assert a[..i + 1] == [a[0]] + a[1..][..i] && b[..i + 1] == [b[0]] + b[1..][..i];
          assert Precedes(a, b, i + 1);
        }
      }
    } else if a == [] && b != [] {
      assert Precedes(a, b, 0);
    }
  }

  predicate Sorted(xs: seq<string>) {
    forall i, j :: 0 <= i < j < |xs| ==> Less(xs[i], xs[j])
  }

  lemma {:induction false} LessIsTotal(a: string, b: string)
    ensures Less(a, b) || a == b || Less(b, a)
    ensures !(Less(a, b) && Less(b, a))
    ensures a == b ==> !Less(a, b)
  {
    if a != [] && b != [] {
      LessIsTotal(a[1..], b[1..]);
      assert a == [a[0]] + a[1..] && b == [b[0]] + b[1..];
    }
  }

  lemma {:induction false} LessIsTransitive(a: string, b: string, c: string)
    requires Less(a, b) && Less(b, c)
    ensures Less(a, c)
  {
    if a != [] && a[0] == b[0] == c[0] {
      LessIsTransitive(a[1..], b[1..], c[1..]);
    }
  }

  function Insert(xs: seq<string>, x: string): seq<string> {
    if xs == [] || Less(x, xs[0]) then [x] + xs else [xs[0]] + Insert(xs[1..], x)
  }

  /** The library sort, applied to keys met in any order. */
  function Sort(xs: seq<string>): seq<string> {
    if xs == [] then [] else Insert(Sort(xs[1..]), xs[0])
  }

  lemma {:induction false} InsertSorts(xs: seq<string>, x: string)
    requires Sorted(xs) && x !in xs
    ensures Sorted(Insert(xs, x))
    ensures Elements(Insert(xs, x)) == Elements(xs) + {x}
  {
    if xs == [] {
    } else if Less(x, xs[0]) {
      assert Elements([x] + xs) == {x} + Elements(xs);
      forall j | 0 <= j < |xs|
        ensures Less(x, xs[j])
      {
        if j > 0 { LessIsTransitive(x, xs[0], xs[j]); }
      }
    } else {
      var rest := Insert(xs[1..], x);
      InsertSorts(xs[1..], x);
      LessIsTotal(x, xs[0]);
      assert xs == [xs[0]] + xs[1..];
      assert Elements(xs) == {xs[0]} + Elements(xs[1..]);
      assert Elements([xs[0]] + rest) == {xs[0]} + Elements(rest);
      forall j | 0 <= j < |rest|
        ensures Less(xs[0], rest[j])
      {
        assert rest[j] in Elements(rest);
      }
    }
  }

  lemma {:induction false} SortSorts(xs: seq<string>)
    requires Distinct(xs)
    ensures Sorted(Sort(xs)) && Elements(Sort(xs)) == Elements(xs)
  {
    if xs != [] {
      SortSorts(xs[1..]);
      assert xs[0] !in Elements(xs[1..]);
      assert Elements(xs) == {xs[0]} + Elements(xs[1..]);
      assert xs[0] !in Elements(Sort(xs[1..]));
      InsertSorts(Sort(xs[1..]), xs[0]);
    }
  }

  /** A set has one sorted arrangement. */
  lemma {:induction false} SortedIsUnique(xs: seq<string>, ys: seq<string>)
    requires Sorted(xs) && Sorted(ys) && Elements(xs) == Elements(ys)
    ensures xs == ys
  {
    if xs == [] {
      assert forall i :: 0 <= i < |ys| ==> ys[i] in Elements(ys);
    } else {
      assert xs[0] in Elements(ys);
      assert ys[0] in Elements(xs);
      var i :| 0 <= i < |ys| && ys[i] == xs[0];
      var j :| 0 <= j < |xs| && xs[j] == ys[0];
      LessIsTotal(xs[0], ys[0]);
      assert xs[0] == ys[0];
      SortedTail(xs);
      SortedTail(ys);
      SortedIsUnique(xs[1..], ys[1..]);
    }
  }

  lemma SortedTail(xs: seq<string>)
    requires Sorted(xs) && xs != []
    ensures Sorted(xs[1..]) && Elements(xs[1..]) == Elements(xs) - {xs[0]}
  {
    forall j | 0 < j < |xs|
      ensures xs[j] != xs[0]
    {
      LessIsTotal(xs[0], xs[j]);
    }
    assert xs == [xs[0]] + xs[1..];
  }

  lemma {:induction false} SortedExists(keys: set<string>)
    ensures exists xs :: Sorted(xs) && Elements(xs) == keys
  {
    if keys == {} {
      assert Sorted([]) && Elements([]) == keys;
    } else {
      var x :| x in keys;
      SortedExists(keys - {x});
      var rest :| Sorted(rest) && Elements(rest) == keys - {x};
      assert x !in Elements(rest);
      InsertSorts(rest, x);
      assert Elements(Insert(rest, x)) == keys;
    }
  }

  /** The keys of a set in dictionary order. */
  ghost function InOrder(keys: set<string>): (xs: seq<string>)
    ensures Sorted(xs) && Elements(xs) == keys
  {
    SortedExists(keys);
    var xs :| Sorted(xs) && Elements(xs) == keys;
    xs
  }

  /** Sorting forgets the order in which a map's keys were visited. */
  lemma SortForgetsVisitOrder(visited: seq<string>, keys: set<string>)
    requires Distinct(visited) && Elements(visited) == keys
    ensures Sort(visited) == InOrder(keys)
  {
    SortSorts(visited);
    SortedIsUnique(Sort(visited), InOrder(keys));
  }
}
