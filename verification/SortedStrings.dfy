/** Sorting of string lists in the byte order of their characters. */
module SortedStrings {
  import opened FiniteSets

  predicate Le(a: string, b: string) {
    if a == "" then true
    else if b == "" then false
    else a[0] < b[0] || (a[0] == b[0] && Le(a[1..], b[1..]))
  }

  lemma {:induction false} LeTotal(a: string, b: string)
    ensures Le(a, b) || Le(b, a)
  {
    if a != "" && b != "" && a[0] == b[0] {
      LeTotal(a[1..], b[1..]);
    }
  }

  lemma {:induction false} LeAntisymmetric(a: string, b: string)
    requires Le(a, b) && Le(b, a)
    ensures a == b
  {
    if a != "" && b != "" {
      LeAntisymmetric(a[1..], b[1..]);
      assert a == [a[0]] + a[1..] && b == [b[0]] + b[1..];
    }
  }

  lemma {:induction false} LeTransitive(a: string, b: string, c: string)
    requires Le(a, b) && Le(b, c)
    ensures Le(a, c)
  {
    if a != "" && b != "" && c != "" && a[0] == b[0] == c[0] {
      LeTransitive(a[1..], b[1..], c[1..]);
    }
  }

  /** The order is that of the first character in which two strings differ; a prefix comes first. */
  lemma {:induction false} LeIff(a: string, b: string)
    ensures Le(a, b) <==> a <= b || exists k: nat :: LessAt(a, b, k)
  {
    if a != "" && b != "" && a[0] == b[0] {
      LeIff(a[1..], b[1..]);
      assert a <= b <==> a[1..] <= b[1..];
      if k: nat :| LessAt(a[1..], b[1..], k) {
        LessAtLater(a, b, k);
      }
      if k: nat :| LessAt(a, b, k) {
        LessAtLater(a, b, k - 1);
      }
    } else if a != "" && b != "" {
      assert LessAt(a, b, 0) <==> a[0] < b[0];
    }
  }

  /** The strings agree before this place, and the first one has the smaller character there. */
  predicate LessAt(a: string, b: string, k: nat) {
    k < |a| && k < |b| && a[..k] == b[..k] && a[k] < b[k]
  }

  lemma LessAtLater(a: string, b: string, k: nat)
    requires a != "" && b != "" && a[0] == b[0]
    ensures LessAt(a, b, k + 1) <==> LessAt(a[1..], b[1..], k)
  {
    if k < |a| - 1 && k < |b| - 1 {
      assert a[..k + 1] == [a[0]] + a[1..][..k] && b[..k + 1] == [b[0]] + b[1..][..k];
    }
  }

  predicate Sorted(s: seq<string>) {
    forall i, j | 0 <= i < j < |s| :: Le(s[i], s[j])
  }

  /** Sorted and without duplicates. */
  predicate Canonical(s: seq<string>) {
    Sorted(s) && Distinct(s)
  }

  function Insert(x: string, s: seq<string>): seq<string> {
    if s == [] || Le(x, s[0]) then [x] + s else [s[0]] + Insert(x, s[1..])
  }

  function Sort(s: seq<string>): seq<string> {
    if s == [] then [] else Insert(s[0], Sort(s[1..]))
  }

  lemma {:induction false} InsertKeeps(x: string, s: seq<string>)
    requires Sorted(s)
    ensures Sorted(Insert(x, s))
    ensures multiset(Insert(x, s)) == multiset(s) + multiset{x}
  {
    if s == [] {
    } else if Le(x, s[0]) {
      forall j | 0 <= j < |s|
        ensures Le(x, s[j])
      {
        if j > 0 {
          LeTransitive(x, s[0], s[j]);
        }
      }
    } else {
      LeTotal(x, s[0]);
      InsertKeeps(x, s[1..]);
      var rest := Insert(x, s[1..]);
      assert s == [s[0]] + s[1..];
      forall j | 0 <= j < |rest|
        ensures Le(s[0], rest[j])
      {
        assert rest[j] in multiset(rest);
        if rest[j] != x {
          assert rest[j] in s[1..];
        }
      }
    }
  }

  lemma {:induction false} SortCorrect(s: seq<string>)
    ensures Sorted(Sort(s)) && multiset(Sort(s)) == multiset(s)
  {
    if s != [] {
      SortCorrect(s[1..]);
      InsertKeeps(s[0], Sort(s[1..]));
      assert s == [s[0]] + s[1..];
    }
  }

  lemma {:induction false} DistinctMultiset(s: seq<string>)
    ensures Distinct(s) <==> forall x | x in s :: multiset(s)[x] == 1
  {
    if s != [] {
      DistinctMultiset(s[1..]);
      assert s == [s[0]] + s[1..];
      assert multiset(s) == multiset{s[0]} + multiset(s[1..]);
      if Distinct(s) {
        assert s[0] !in s[1..];
        assert forall x | x in s :: multiset(s)[x] == 1;
      }
      if forall x | x in s :: multiset(s)[x] == 1 {
        assert s[0] in s && s[0] !in multiset(s[1..]);
        assert forall x | x in s[1..] :: x in s && multiset(s[1..])[x] == 1;
      }
    }
  }

  /** Sorting keeps the elements, and keeps a list free of duplicates. */
  lemma SortKeepsElements(s: seq<string>)
    ensures Elements(Sort(s)) == Elements(s)
    ensures Distinct(s) ==> Canonical(Sort(s))
  {
    SortCorrect(s);
    assert forall x :: x in s <==> x in multiset(s);
    assert forall x :: x in Sort(s) <==> x in multiset(Sort(s));
    DistinctMultiset(s);
    DistinctMultiset(Sort(s));
  }

  /** A set of strings has only one canonical list. */
  lemma {:induction false} CanonicalUnique(s: seq<string>, t: seq<string>)
    requires Canonical(s) && Canonical(t) && Elements(s) == Elements(t)
    ensures s == t
  {
    assert s == [] <==> t == [] by {
      EmptyElements(s);
      EmptyElements(t);
    }
    if s != [] {
      assert s[0] in Elements(s) && s[0] in t;
      assert t[0] in Elements(t) && t[0] in s;
      FirstIsLeast(s, t[0]);
      FirstIsLeast(t, s[0]);
      LeAntisymmetric(s[0], t[0]);
      assert s == [s[0]] + s[1..] && t == [t[0]] + t[1..];
      assert Elements(s[1..]) == Elements(s) - {s[0]};
      assert Elements(t[1..]) == Elements(t) - {t[0]};
      CanonicalUnique(s[1..], t[1..]);
    }
  }

  lemma EmptyElements(s: seq<string>)
    ensures s == [] <==> Elements(s) == {}
  {
    if s != [] {
      assert s[0] in Elements(s);
    }
  }

  lemma FirstIsLeast(s: seq<string>, x: string)
    requires Sorted(s) && x in s
    ensures Le(s[0], x)
  {
    var i :| 0 <= i < |s| && s[i] == x;
    if i == 0 {
      LeTotal(x, x);
    }
  }

  /** The first occurrences of a list's elements. */
  function Unique(s: seq<string>): seq<string> {
    if s == [] then []
    else
      var init, last := s[..|s| - 1], s[|s| - 1];
      if last in init then Unique(init) else Unique(init) + [last]
  }

  lemma {:induction false} UniqueCorrect(s: seq<string>)
    ensures Elements(Unique(s)) == Elements(s) && Distinct(Unique(s))
  {
    if s != [] {
      var init, last := s[..|s| - 1], s[|s| - 1];
      UniqueCorrect(init);
      assert s == init + [last];
      assert Elements(s) == Elements(init) + {last};
      if last !in init {
        assert last !in Elements(init);
        assert Elements(Unique(init) + [last]) == Elements(Unique(init)) + {last};
      }
    }
  }

  function Filter(s: seq<string>, keep: set<string>): seq<string> {
    if s == [] then []
    else (if s[0] in keep then [s[0]] else []) + Filter(s[1..], keep)
  }

  lemma {:induction false} FilterCorrect(s: seq<string>, keep: set<string>)
    ensures Elements(Filter(s, keep)) == Elements(s) * keep
    ensures Distinct(s) ==> Distinct(Filter(s, keep))
  {
    if s != [] {
      FilterCorrect(s[1..], keep);
      assert s == [s[0]] + s[1..];
      assert Elements(s) == {s[0]} + Elements(s[1..]);
      var rest := Filter(s[1..], keep);
      if s[0] in keep {
        assert Filter(s, keep) == [s[0]] + rest;
        assert Elements([s[0]] + rest) == {s[0]} + Elements(rest);
        assert Elements(s) * keep == {s[0]} + Elements(s[1..]) * keep;
        if Distinct(s) {
          assert s[0] !in s[1..];
          assert s[0] !in Elements(rest);
        }
      } else {
        assert Filter(s, keep) == rest;
        assert Elements(s) * keep == Elements(s[1..]) * keep;
      }
    }
  }

  /** `unique`, `filter` and `sort` together: the canonical list of the kept elements. */
  function Cleaned(s: seq<string>, keep: set<string>): (r: seq<string>)
    ensures Canonical(r) && Elements(r) == Elements(s) * keep
  {
    UniqueCorrect(s);
    FilterCorrect(Unique(s), keep);
    SortKeepsElements(Filter(Unique(s), keep));
    Sort(Filter(Unique(s), keep))
  }
}
