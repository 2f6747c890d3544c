/** Shared vocabulary: optional values, the fate of an API call, and facts about sequences and sets. */
module Prelude {

  datatype Option<+T> = None | Some(value: T)

  /** What became of one call to the apiserver: it was acknowledged, it never took effect,
      or it took effect although the caller was handed an error. */
  datatype CallResult = Acknowledged | Lost | Unacknowledged
  {
    predicate TookEffect() { !Lost? }
  }

  /** Namespaced object key. */
  datatype Key = Key(ns: string, name: string)

  predicate Distinct<T(==)>(xs: seq<T>) {
    forall i, j :: 0 <= i < j < |xs| ==> xs[i] != xs[j]
  }

  function Elements<T>(xs: seq<T>): set<T> {
    set x | x in xs
  }

  function Min(a: int, b: int): int {
    if a < b then a else b
  }

  lemma {:induction false} DistinctElements<T>(xs: seq<T>)
    requires Distinct(xs)
    ensures |Elements(xs)| == |xs|
  {
    if xs == [] {
      assert Elements(xs) == {};
    } else {
      var n := |xs| - 1;
      DistinctElements(xs[..n]);
      assert xs[n] !in xs[..n];
      assert Elements(xs) == Elements(xs[..n]) + {xs[n]};
    }
  }

  lemma {:induction false} SubsetSize<T>(a: set<T>, b: set<T>)
    requires a <= b
    ensures |a| <= |b|
  {
    if a != {} {
      var x :| x in a;
      SubsetSize(a - {x}, b - {x});
    }
  }

  predicate IsDigit(c: char) {
    '0' <= c <= '9'
  }

  /** The number a string of decimal digits stands for. */
  function Decimal(s: string): int {
    if s == "" then 0 else 10 * Decimal(s[..|s| - 1]) + (s[|s| - 1] as int - '0' as int)
  }

  /** Cutting a sequence without repetitions splits its elements. */
  lemma CutDistinct<T>(xs: seq<T>, cut: nat)
    requires Distinct(xs) && cut <= |xs|
    ensures forall x :: x in xs[..cut] <==> x in xs && x !in xs[cut..]
    ensures |Elements(xs[..cut])| == cut && |Elements(xs)| == |xs|
  {
    assert xs == xs[..cut] + xs[cut..];
    DistinctElements(xs[..cut]);
    DistinctElements(xs);
  }
}
