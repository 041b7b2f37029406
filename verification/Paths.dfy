/**
  Path resolution of the file manager (app/helpers.php): a path is split at its
  slashes, `.` and `..` are worked off on a stack, and the stack is joined again.
*/
module Paths {

  /** `explode('/', path)`. */
  function Split(path: string): (parts: seq<string>)
    ensures |parts| > 0
    ensures forall p | p in parts :: '/' !in p
  {
    if path == "" then [""]
    else
      var rest := Split(path[1..]);
      if path[0] == '/' then [""] + rest
      else [[path[0]] + rest[0]] + rest[1..]
  }

  /** `implode('/', parts)`. */
  function Join(parts: seq<string>): string {
    if parts == [] then ""
    else if |parts| == 1 then parts[0]
    else parts[0] + "/" + Join(parts[1..])
  }

  function NonEmpty(parts: seq<string>): seq<string> {
    if parts == [] then []
    else (if parts[0] == "" then [] else [parts[0]]) + NonEmpty(parts[1..])
  }

  /** The non-empty components of a path. */
  function Components(path: string): seq<string> {
    NonEmpty(Split(path))
  }

  /** One component applied to the stack of components so far. */
  function Apply(stack: seq<string>, part: string): seq<string> {
    if part == "." then stack
    else if part == ".." then (if stack == [] then [] else stack[..|stack| - 1])
    else stack + [part]
  }

  /** The stack after a list of components. */
  function Walk(stack: seq<string>, parts: seq<string>): seq<string>
    decreases |parts|
  {
    if parts == [] then stack else Walk(Apply(stack, parts[0]), parts[1..])
  }

  function Resolve(path: string): string {
    Join(Walk([], Components(path)))
  }

  /** A component that stands for itself: it names an entry of a directory. */
  predicate Plain(part: string) {
    part != "" && part != "." && part != ".." && '/' !in part
  }

  predicate AllPlain(parts: seq<string>) {
    forall p | p in parts :: Plain(p)
  }

  // ---------------------------------------------------------------------
  // Splitting
  // ---------------------------------------------------------------------

  /** What one more character in front does to the parts. */
  function Prepended(c: char, parts: seq<string>): seq<string>
    requires parts != []
  {
    if c == '/' then [""] + parts else [[c] + parts[0]] + parts[1..]
  }

  lemma SplitOne(c: char, rest: string)
    ensures Split([c] + rest) == Prepended(c, Split(rest))
  {
    assert ([c] + rest)[1..] == rest;
  }

  lemma PrependedConcat(c: char, parts: seq<string>, more: seq<string>)
    requires parts != []
    ensures Prepended(c, parts + more) == Prepended(c, parts) + more
  {
    assert (parts + more)[1..] == parts[1..] + more;
  }

  lemma {:induction false} SplitConcat(a: string, b: string)
    ensures Split(a + "/" + b) == Split(a) + Split(b)
  {
    if a == "" {
      SplitOne('/', b);
      assert a + "/" + b == ['/'] + b;
    } else {
      var rest := a[1..] + "/" + b;
      SplitConcat(a[1..], b);
      assert a + "/" + b == [a[0]] + rest && a == [a[0]] + a[1..];
      SplitOne(a[0], rest);
      SplitOne(a[0], a[1..]);
      PrependedConcat(a[0], Split(a[1..]), Split(b));
    }
  }

  lemma {:induction false} NonEmptyConcat(a: seq<string>, b: seq<string>)
    ensures NonEmpty(a + b) == NonEmpty(a) + NonEmpty(b)
  {
    if a == [] {
      assert a + b == b;
    } else {
      assert (a + b)[1..] == a[1..] + b;
      NonEmptyConcat(a[1..], b);
    }
  }

  /** The components of two paths joined by a slash are those of both. */
  lemma ComponentsConcat(a: string, b: string)
    ensures Components(a + "/" + b) == Components(a) + Components(b)
  {
    SplitConcat(a, b);
    NonEmptyConcat(Split(a), Split(b));
  }

  lemma {:induction false} SplitPlain(part: string)
    requires '/' !in part
    ensures Split(part) == [part]
  {
    if part != "" {
      SplitPlain(part[1..]);
      assert [part[0]] + part[1..] == part;
    }
  }

  lemma OneComponent(part: string)
    requires part != "" && '/' !in part
    ensures Components(part) == [part]
  {
    SplitPlain(part);
    assert [part][0] == part && [part][1..] == [];
    assert NonEmpty([]) == [];
    assert NonEmpty([part]) == [part] + NonEmpty([part][1..]);
  }

  /** Splitting undoes joining on components that are neither empty nor split by a slash. */
  lemma {:induction false} ComponentsJoin(parts: seq<string>)
    requires forall p | p in parts :: p != "" && '/' !in p
    ensures Components(Join(parts)) == parts
  {
    if parts != [] {
      assert parts[0] in parts && forall p | p in parts[1..] :: p in parts;
      OneComponent(parts[0]);
      if |parts| > 1 {
        ComponentsJoin(parts[1..]);
        ComponentsConcat(parts[0], Join(parts[1..]));
      } else {
        assert parts == [parts[0]];
      }
    }
  }

  // ---------------------------------------------------------------------
  // The stack
  // ---------------------------------------------------------------------

  lemma {:induction false} WalkConcat(stack: seq<string>, a: seq<string>, b: seq<string>)
    ensures Walk(stack, a + b) == Walk(Walk(stack, a), b)
    decreases |a|
  {
    if a == [] {
      assert a + b == b;
    } else {
      assert (a + b)[1..] == a[1..] + b;
      WalkConcat(Apply(stack, a[0]), a[1..], b);
    }
  }

  lemma {:induction false} WalkStaysPlain(stack: seq<string>, parts: seq<string>)
    requires AllPlain(stack)
    requires forall p | p in parts :: p != "" && '/' !in p
    ensures AllPlain(Walk(stack, parts))
    decreases |parts|
  {
    if parts != [] {
      var next := Apply(stack, parts[0]);
      assert forall p | p in next :: p in stack || (p == parts[0] && Plain(p));
      assert forall p | p in parts[1..] :: p in parts;
      WalkStaysPlain(next, parts[1..]);
    }
  }

  /** Plain components are pushed one after the other. */
  lemma {:induction false} WalkPlain(stack: seq<string>, parts: seq<string>)
    requires AllPlain(parts)
    ensures Walk(stack, parts) == stack + parts
    decreases |parts|
  {
    if parts == [] {
      assert stack + parts == stack;
    } else {
      assert Plain(parts[0]);
      WalkPlain(stack + [parts[0]], parts[1..]);
      assert stack + parts == (stack + [parts[0]]) + parts[1..];
    }
  }

  lemma {:induction false} NonEmptyParts(parts: seq<string>)
    ensures forall p | p in NonEmpty(parts) :: p != "" && p in parts
  {
    if parts != [] {
      NonEmptyParts(parts[1..]);
    }
  }

  // ---------------------------------------------------------------------
  // The laws of `resolve_path`
  // ---------------------------------------------------------------------

  /** What is resolved has only plain components, and exactly those of the stack. */
  lemma ResolvedComponents(path: string)
    ensures AllPlain(Components(Resolve(path)))
    ensures Components(Resolve(path)) == Walk([], Components(path))
  {
    NonEmptyParts(Split(path));
    WalkStaysPlain([], Components(path));
    ComponentsJoin(Walk([], Components(path)));
  }

  lemma WalkPlainFromRoot(parts: seq<string>)
    requires AllPlain(parts)
    ensures Walk([], parts) == parts
  {
    WalkPlain([], parts);
    assert [] + parts == parts;
  }

  /** Resolving a resolved path changes nothing. */
  lemma ResolveIdempotent(path: string)
    ensures Resolve(Resolve(path)) == Resolve(path)
  {
    ResolvedComponents(path);
    WalkPlainFromRoot(Components(Resolve(path)));
  }

  /** The first part of a path may be resolved on its own, for all strings. */
  lemma ResolveComposes(a: string, b: string)
    ensures Resolve(a + "/" + b) == Resolve(Resolve(a) + "/" + b)
  {
    ComponentsConcat(a, b);
    ComponentsConcat(Resolve(a), b);
    ResolvedComponents(a);
    WalkConcat([], Components(a), Components(b));
    WalkPlainFromRoot(Components(Resolve(a)));
    WalkConcat([], Components(Resolve(a)), Components(b));
  }

  /** A path is its own resolution exactly when it is plain components joined by single slashes. */
  lemma ResolvedIffNormal(path: string)
    ensures Resolve(path) == path <==> AllPlain(Components(path)) && Join(Components(path)) == path
  {
    ResolvedComponents(path);
    if AllPlain(Components(path)) {
      WalkPlainFromRoot(Components(path));
    }
  }

  /**
    `..` cancels the component before it, wherever that happens in a path, and a
    path cannot climb above its root.
  */
  lemma ParentCancels(a: string, name: string, b: string)
    requires Plain(name)
    ensures Resolve(a + "/" + (name + "/" + (".." + "/" + b))) == Resolve(a + "/" + b)
    ensures Resolve(".." + "/" + b) == Resolve(b)
  {
    var tail := ".." + "/" + b;
    OneComponent(name);
    OneComponent("..");
    ComponentsConcat("..", b);
    ComponentsConcat(name, tail);
    ComponentsConcat(a, name + "/" + tail);
    ComponentsConcat(a, b);
    var stack := Walk([], Components(a));
    var rest := Components(b);
    WalkConcat([], Components(a), [name] + ([".."] + rest));
    WalkConcat([], Components(a), rest);
    assert ([name] + ([".."] + rest))[1..] == [".."] + rest;
    assert ([".."] + rest)[1..] == rest;
    assert Apply(Apply(stack, name), "..") == stack;
  }

  lemma WalkStep(parts: seq<string>, i: nat)
    requires i < |parts|
    ensures Walk([], parts[..i + 1]) == Apply(Walk([], parts[..i]), parts[i])
  {
    var one := [parts[i]];
    assert parts[..i + 1] == parts[..i] + one;
    WalkConcat([], parts[..i], one);
    assert one[1..] == [];
  }

  method ResolvePath(path: string) returns (r: string)
    ensures r == Resolve(path)
  {
    var parts := Components(path);
    var absolutes: seq<string> := [];
    for i := 0 to |parts|
      invariant absolutes == Walk([], parts[..i])
    {
      WalkStep(parts, i);
      if parts[i] == "." {
        continue;
      }
      if parts[i] == ".." {
        if absolutes != [] {
          absolutes := absolutes[..|absolutes| - 1];
        }
      } else {
        absolutes := absolutes + [parts[i]];
      }
    }
    assert parts[..|parts|] == parts;
    r := Join(absolutes);
  }
}
