/** Cardinalities of finite sets and distinctness of sequences. */
module FiniteSets {

  lemma {:induction false} SubsetSize<T>(a: set<T>, b: set<T>)
    requires a <= b
    ensures |a| <= |b|
    decreases |a|
  {
    if a != {} {
      var x :| x in a;
      SubsetSize(a - {x}, b - {x});
    }
  }

  predicate Distinct<T(==)>(s: seq<T>) {
    forall i, j | 0 <= i < j < |s| :: s[i] != s[j]
  }

  function Elements<T>(s: seq<T>): set<T> {
    set x | x in s
  }

  lemma {:induction false} DistinctSize<T>(s: seq<T>)
    requires Distinct(s)
    ensures |Elements(s)| == |s|
  {
    if s != [] {
      DistinctSize(s[1..]);
      assert s == [s[0]] + s[1..];
      assert Elements(s) == {s[0]} + Elements(s[1..]);
      assert s[0] !in s[1..];
    }
  }

  /** A non-empty finite set has an element that a key places first. */
  lemma {:induction false} LeastExists<T>(s: set<T>, key: T -> int)
    requires s != {}
    ensures exists x :: x in s && forall y | y in s :: key(x) <= key(y)
    decreases |s|
  {
    var x :| x in s;
    if s == {x} {
      assert forall y | y in s :: key(x) <= key(y);
    } else {
      LeastExists(s - {x}, key);
      var y :| y in s - {x} && forall z | z in s - {x} :: key(y) <= key(z);
      var first := if key(x) <= key(y) then x else y;
      assert first in s && forall z | z in s :: key(first) <= key(z);
    }
  }
}
