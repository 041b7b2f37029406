/**
  Placeholder substitution in egg configuration files
  (app/Services/Eggs/EggConfigurationService.php).

  The panel finds the `{{key}}` placeholders of a string with one regular
  expression and then replaces them one key after the other. This module shows
  that the result is the simultaneous substitution of all of them.
*/
module Placeholders {
  import opened Wrappers

  // ---------------------------------------------------------------------
  // Strings, placeholders and tokens
  // ---------------------------------------------------------------------

  /** The class `[\w.-]` of the placeholder expression. */
  predicate KeyChar(c: char) {
    'a' <= c <= 'z' || 'A' <= c <= 'Z' || '0' <= c <= '9' || c == '_' || c == '.' || c == '-'
  }

  predicate LegalKey(key: string) {
    forall i | 0 <= i < |key| :: KeyChar(key[i])
  }

  function KeyText(key: string): string {
    "{{" + key + "}}"
  }

  /** A template, read as characters and placeholders. */
  datatype Token = Chr(c: char) | Key(key: string)

  function Show(t: Token): string {
    match t
    case Chr(c) => [c]
    case Key(key) => KeyText(key)
  }

  function Render(ts: seq<Token>): string {
    if ts == [] then "" else Show(ts[0]) + Render(ts[1..])
  }

  function Chars(s: string): (ts: seq<Token>)
    ensures |ts| == |s|
    ensures forall i | 0 <= i < |s| :: ts[i] == Chr(s[i])
  {
    seq(|s|, i requires 0 <= i < |s| => Chr(s[i]))
  }

  predicate StartsWith(s: string, prefix: string) {
    |prefix| <= |s| && s[..|prefix|] == prefix
  }

  lemma PrefixAt(s: string, prefix: string, i: nat)
    requires i < |prefix|
    ensures StartsWith(s, prefix) ==> i < |s| && s[i] == prefix[i]
  {
    if StartsWith(s, prefix) {
      assert s[i] == s[..|prefix|][i];
    }
  }

  /** Length of the longest run of key characters at the start of `s`. */
  function RunLength(s: string): (n: nat)
    ensures n <= |s|
    ensures LegalKey(s[..n])
    ensures n < |s| ==> !KeyChar(s[n])
  {
    if s == "" || !KeyChar(s[0]) then 0
    else
      var n := 1 + RunLength(s[1..]);
      assert s[..n] == [s[0]] + s[1..][..n - 1];
      n
  }

  /** `s` begins with a match of the expression `{{[\w.-]*}}`. */
  predicate MatchesHere(s: string) {
    StartsWith(s, "{{") && StartsWith(s[2..][RunLength(s[2..])..], "}}")
  }

  function KeyHere(s: string): string
    requires MatchesHere(s)
  {
    s[2..][..RunLength(s[2..])]
  }

  /** The leftmost, non-overlapping scan that `preg_match_all` performs. */
  function Tokenize(s: string): (ts: seq<Token>)
    ensures forall i | 0 <= i < |ts| && ts[i].Key? :: LegalKey(ts[i].key)
    decreases |s|
  {
    if s == "" then []
    else if MatchesHere(s) then
      [Key(KeyHere(s))] + Tokenize(s[|KeyHere(s)| + 4..])
    else
      [Chr(s[0])] + Tokenize(s[1..])
  }

  function KeysOf(ts: seq<Token>): seq<string> {
    if ts == [] then []
    else if ts[0].Key? then [ts[0].key] + KeysOf(ts[1..])
    else KeysOf(ts[1..])
  }

  /** The captured keys, in order of appearance. */
  function MatchAll(s: string): seq<string> {
    KeysOf(Tokenize(s))
  }

  /** `str_replace`: every occurrence of `find`, from the left. */
  function StrReplace(s: string, find: string, with: string): string
    requires find != ""
    decreases |s|
  {
    if s == "" then ""
    else if StartsWith(s, find) then with + StrReplace(s[|find|..], find, with)
    else [s[0]] + StrReplace(s[1..], find, with)
  }

  // ---------------------------------------------------------------------
  // Scanning and rendering undo each other
  // ---------------------------------------------------------------------

  lemma SplitAtKey(s: string)
    requires MatchesHere(s)
    ensures |KeyHere(s)| + 4 <= |s| && s == KeyText(KeyHere(s)) + s[|KeyHere(s)| + 4..]
  {
    var key := KeyHere(s);
    var tail := s[2..][|key|..];
    assert s == "{{" + s[2..];
    assert s[2..] == key + tail;
    assert tail == "}}" + tail[2..];
    assert tail[2..] == s[|key| + 4..];
  }

  /** No information is lost by the scan: it partitions every string. */
  lemma {:induction false} RenderTokenize(s: string)
    ensures Render(Tokenize(s)) == s
    decreases |s|
  {
    if s != "" {
      if MatchesHere(s) {
        RenderTokenize(s[|KeyHere(s)| + 4..]);
        SplitAtKey(s);
      } else {
        RenderTokenize(s[1..]);
        assert Tokenize(s)[1..] == Tokenize(s[1..]);
      }
    }
  }

  /**
    An opening brace outside a placeholder is followed by a character that is
    not an opening brace. In particular this holds when braces occur only in
    placeholders.
  */
  predicate Calm(ts: seq<Token>) {
    ts == [] ||
    (&& (ts[0] == Chr('{') && |ts| > 1 ==> ts[1].Chr? && ts[1].c != '{')
     && Calm(ts[1..]))
  }

  predicate LegalKeys(ts: seq<Token>) {
    forall i | 0 <= i < |ts| && ts[i].Key? :: LegalKey(ts[i].key)
  }

  /** A substituted value neither contains `{{` nor ends in `{`. */
  predicate CalmValue(v: string) {
    forall i | 0 <= i < |v| && v[i] == '{' :: i + 1 < |v| && v[i + 1] != '{'
  }

  lemma RenderHead(ts: seq<Token>)
    requires ts != []
    ensures Render(ts) != ""
    ensures ts[0].Chr? ==> Render(ts)[0] == ts[0].c
    ensures ts[0].Key? ==> Render(ts)[0] == '{'
  {
  }

  /** In calm text, a character token never starts a placeholder. */
  lemma CalmCharacter(ts: seq<Token>)
    requires ts != [] && ts[0].Chr? && Calm(ts)
    ensures Render(ts) == [ts[0].c] + Render(ts[1..])
    ensures !StartsWith(Render(ts), "{{")
  {
    if |ts| > 1 {
      RenderHead(ts[1..]);
      assert Render(ts)[1] == Render(ts[1..])[0];
      PrefixAt(Render(ts), "{{", 0);
      PrefixAt(Render(ts), "{{", 1);
    } else {
      assert ts[1..] == [];
    }
  }

  lemma {:induction false} RunLengthOfKey(key: string, rest: string)
    requires LegalKey(key)
    requires rest == "" || !KeyChar(rest[0])
    ensures RunLength(key + rest) == |key|
  {
    if key == "" {
      assert key + rest == rest;
    } else {
      assert (key + rest)[1..] == key[1..] + rest;
      RunLengthOfKey(key[1..], rest);
    }
  }

  lemma KeyMatchesHere(key: string, rest: string)
    requires LegalKey(key)
    ensures MatchesHere(KeyText(key) + rest) && KeyHere(KeyText(key) + rest) == key
    ensures (KeyText(key) + rest)[|key| + 4..] == rest
  {
    var s := KeyText(key) + rest;
    assert s[2..] == key + ("}}" + rest);
    RunLengthOfKey(key, "}}" + rest);
    assert s[2..][|key|..] == "}}" + rest;
  }

  /** The scan of rendered calm tokens gives the tokens back. */
  lemma {:induction false} TokenizeRender(ts: seq<Token>)
    requires Calm(ts) && LegalKeys(ts)
    ensures Tokenize(Render(ts)) == ts
  {
    if ts != [] {
      TokenizeRender(ts[1..]);
      assert ts == [ts[0]] + ts[1..];
      match ts[0] {
        case Chr(c) =>
          CalmCharacter(ts);
          assert Render(ts)[1..] == Render(ts[1..]);
        case Key(key) =>
          KeyMatchesHere(key, Render(ts[1..]));
      }
    }
  }

  // ---------------------------------------------------------------------
  // One `str_replace` replaces exactly the tokens of one key
  // ---------------------------------------------------------------------

  function SubstituteOne(ts: seq<Token>, key: string, v: string): seq<Token> {
    if ts == [] then []
    else if ts[0] == Key(key) then Chars(v) + SubstituteOne(ts[1..], key, v)
    else [ts[0]] + SubstituteOne(ts[1..], key, v)
  }

  lemma RenderOne(t: Token, ts: seq<Token>)
    ensures Render([t] + ts) == Show(t) + Render(ts)
  {
    assert ([t] + ts)[1..] == ts;
  }

  lemma Associative(a: string, b: string, c: string)
    ensures a + (b + c) == (a + b) + c
  {
  }

  lemma CharsOne(v: string)
    requires v != ""
    ensures Chars(v) == [Chr(v[0])] + Chars(v[1..])
  {
  }

  lemma {:induction false} RenderConcat(a: seq<Token>, b: seq<Token>)
    ensures Render(a + b) == Render(a) + Render(b)
  {
    if a == [] {
      assert a + b == b;
    } else {
      RenderConcat(a[1..], b);
      RenderConcatStep(a[0], a[1..], b);
      assert [a[0]] + a[1..] == a;
    }
  }

  lemma RenderConcatStep(t: Token, rest: seq<Token>, b: seq<Token>)
    requires Render(rest + b) == Render(rest) + Render(b)
    ensures Render([t] + rest + b) == Render([t] + rest) + Render(b)
  {
    var x, y, z := Show(t), Render(rest), Render(b);
    assert [t] + rest + b == [t] + (rest + b);
    RenderOne(t, rest + b);
    RenderOne(t, rest);
    Associative(x, y, z);
  }

  lemma {:induction false} RenderOnlyChars(v: string)
    ensures Render(Chars(v)) == v
  {
    if v != "" {
      RenderOnlyChars(v[1..]);
      CharsOne(v);
      RenderOne(Chr(v[0]), Chars(v[1..]));
    }
  }

  lemma RenderChars(v: string, ts: seq<Token>)
    ensures Render(Chars(v) + ts) == v + Render(ts)
  {
    RenderConcat(Chars(v), ts);
    RenderOnlyChars(v);
  }

  lemma {:induction false} SkipText(u: string, rest: string, key: string, v: string)
    requires '{' !in u
    ensures StrReplace(u + rest, KeyText(key), v) == u + StrReplace(rest, KeyText(key), v)
  {
    if u == "" {
      assert u + rest == rest;
    } else {
      assert (u + rest)[1..] == u[1..] + rest;
      assert KeyText(key)[0] == '{' && (u + rest)[0] == u[0];
      SkipText(u[1..], rest, key, v);
    }
  }

  lemma SameKeyText(key: string, other: string, rest: string)
    requires LegalKey(key) && LegalKey(other)
    requires StartsWith(KeyText(other) + rest, KeyText(key))
    ensures key == other
  {
    KeyMatchesHere(other, rest);
    var s := KeyText(other) + rest;
    var after := s[|KeyText(key)|..];
    assert s == KeyText(key) + after;
    KeyMatchesHere(key, after);
  }

  lemma SkipOtherKey(other: string, rest: string, key: string, v: string)
    requires LegalKey(key) && LegalKey(other) && key != other
    ensures StrReplace(KeyText(other) + rest, KeyText(key), v)
         == KeyText(other) + StrReplace(rest, KeyText(key), v)
  {
    var find := KeyText(key);
    var s := KeyText(other) + rest;
    if StartsWith(s, find) {
      SameKeyText(key, other, rest);
    }
    var u := other + "}}";
    assert s[1..] == "{" + (u + rest);
    assert find[1] == '{' && s[1..][1] == (u + rest)[0] != '{';
    PrefixAt(s[1..], find, 1);
    assert s[1..][1..] == u + rest;
    SkipText(u, rest, key, v);
    calc {
      StrReplace(s, find, v);
      [s[0]] + StrReplace(s[1..], find, v);
      [s[0]] + ([s[1..][0]] + StrReplace(u + rest, find, v));
      "{" + ("{" + (u + StrReplace(rest, find, v)));
      KeyText(other) + StrReplace(rest, find, v);
    }
  }

  lemma NotHere(s: string, key: string)
    requires !StartsWith(s, "{{")
    ensures !StartsWith(s, KeyText(key))
  {
    PrefixAt(s, KeyText(key), 0);
    PrefixAt(s, KeyText(key), 1);
    assert KeyText(key)[0] == '{' && KeyText(key)[1] == '{';
    if |s| >= 2 {
      assert s[..2] == [s[0], s[1]];
    }
  }

  /** `str_replace` on a calm template is the substitution of one key's tokens. */
  lemma {:induction false} ReplaceIsSubstitution(ts: seq<Token>, key: string, v: string)
    requires Calm(ts) && LegalKeys(ts) && LegalKey(key)
    ensures StrReplace(Render(ts), KeyText(key), v) == Render(SubstituteOne(ts, key, v))
  {
    if ts != [] {
      var rest := Render(ts[1..]);
      ReplaceIsSubstitution(ts[1..], key, v);
      match ts[0] {
        case Chr(c) =>
          CalmCharacter(ts);
          NotHere(Render(ts), key);
          assert Render(ts)[1..] == rest;
        case Key(other) =>
          assert Render(ts) == KeyText(other) + rest;
          if other == key {
            assert Render(ts)[|KeyText(key)|..] == rest;
            RenderChars(v, SubstituteOne(ts[1..], key, v));
          } else {
            SkipOtherKey(other, rest, key, v);
          }
      }
    }
  }

  // ---------------------------------------------------------------------
  // The loop over the captured keys
  // ---------------------------------------------------------------------

  /** The server configuration, as a map from dotted paths to values. */
  type Structure = map<string, string>

  function Get(structure: Structure, path: string): string {
    if path in structure then structure[path] else ""
  }

  /** Keys the panel itself replaces; `config.` keys are left to the daemon. */
  predicate Replaceable(key: string) {
    StartsWith(key, "server.") || StartsWith(key, "env.")
  }

  function Plucked(structure: Structure, key: string): string {
    if StartsWith(key, "server.") then Get(structure, key[7..])
    else if StartsWith(key, "env.") then Get(structure, "environment." + key[4..])
    else ""
  }

  /** All placeholders of the template substituted at once. */
  function Simultaneous(ts: seq<Token>, structure: Structure): seq<Token> {
    if ts == [] then []
    else
      (if ts[0].Key? && Replaceable(ts[0].key) then Chars(Plucked(structure, ts[0].key)) else [ts[0]])
      + Simultaneous(ts[1..], structure)
  }

  /** The same, restricted to a set of keys already processed. */
  ghost function Partial(ts: seq<Token>, done: set<string>, structure: Structure): seq<Token> {
    if ts == [] then []
    else
      (if ts[0].Key? && ts[0].key in done && Replaceable(ts[0].key)
       then Chars(Plucked(structure, ts[0].key)) else [ts[0]])
      + Partial(ts[1..], done, structure)
  }

  /** Every value that the template asks for is calm. */
  ghost predicate CalmValues(ts: seq<Token>, structure: Structure) {
    forall i | 0 <= i < |ts| && ts[i].Key? :: CalmValue(Plucked(structure, ts[i].key))
  }

  lemma {:induction false} CalmChars(v: string, ts: seq<Token>)
    requires CalmValue(v) && Calm(ts)
    ensures Calm(Chars(v) + ts)
  {
    if v == "" {
      assert Chars(v) + ts == ts;
    } else {
      CalmChars(v[1..], ts);
      var all := Chars(v) + ts;
      assert all[1..] == Chars(v[1..]) + ts;
      if v[0] == '{' {
        assert all[1] == Chr(v[1]);
      }
    }
  }

  lemma {:induction false} PartialIsCalm(ts: seq<Token>, done: set<string>, structure: Structure)
    requires Calm(ts) && LegalKeys(ts) && CalmValues(ts, structure)
    ensures Calm(Partial(ts, done, structure)) && LegalKeys(Partial(ts, done, structure))
    ensures ts != [] && ts[0].Chr? ==>
      Partial(ts, done, structure) != [] && Partial(ts, done, structure)[0] == ts[0]
    ensures Partial(ts, done, structure) == [] ==> ts == [] || ts[0].Key?
  {
    if ts != [] {
      var rest := Partial(ts[1..], done, structure);
      PartialIsCalm(ts[1..], done, structure);
      if ts[0].Key? && ts[0].key in done && Replaceable(ts[0].key) {
        CalmChars(Plucked(structure, ts[0].key), rest);
      } else {
        assert ([ts[0]] + rest)[1..] == rest;
        if ts[0] == Chr('{') && |rest| > 0 {
          assert |ts| > 1;
          assert rest[0] == ts[1..][0];
        }
      }
    }
  }

  lemma {:induction false} SubstituteOneChars(v: string, rest: seq<Token>, key: string, w: string)
    ensures SubstituteOne(Chars(v) + rest, key, w) == Chars(v) + SubstituteOne(rest, key, w)
  {
    if v == "" {
      assert Chars(v) + rest == rest;
      assert Chars(v) + SubstituteOne(rest, key, w) == SubstituteOne(rest, key, w);
    } else {
      var after := SubstituteOne(rest, key, w);
      SubstituteOneChars(v[1..], rest, key, w);
      CharsOne(v);
      assert Chars(v) + rest == [Chr(v[0])] + (Chars(v[1..]) + rest);
      SubstituteOneChar(v[0], Chars(v[1..]) + rest, key, w);
      assert Chars(v) + after == [Chr(v[0])] + (Chars(v[1..]) + after);
    }
  }

  lemma SubstituteOneChar(c: char, rest: seq<Token>, key: string, w: string)
    ensures SubstituteOne([Chr(c)] + rest, key, w) == [Chr(c)] + SubstituteOne(rest, key, w)
  {
    assert ([Chr(c)] + rest)[1..] == rest;
  }

  /** Values contain no placeholder tokens, so one more key only touches its own tokens. */
  lemma {:induction false} PartialStep(ts: seq<Token>, done: set<string>, key: string, structure: Structure)
    requires Replaceable(key)
    ensures SubstituteOne(Partial(ts, done, structure), key, Plucked(structure, key))
         == Partial(ts, done + {key}, structure)
  {
    if ts != [] {
      PartialStep(ts[1..], done, key, structure);
      var rest := Partial(ts[1..], done, structure);
      if ts[0].Key? && ts[0].key in done && Replaceable(ts[0].key) {
        SubstituteOneChars(Plucked(structure, ts[0].key), rest, key, Plucked(structure, key));
      } else {
        assert ([ts[0]] + rest)[1..] == rest;
      }
    }
  }

  lemma {:induction false} PartialUnchanged(ts: seq<Token>, done: set<string>, key: string, structure: Structure)
    requires !Replaceable(key)
    ensures Partial(ts, done, structure) == Partial(ts, done + {key}, structure)
  {
    if ts != [] {
      PartialUnchanged(ts[1..], done, key, structure);
    }
  }

  lemma {:induction false} PartialNone(ts: seq<Token>, structure: Structure)
    ensures Partial(ts, {}, structure) == ts
  {
    if ts != [] {
      PartialNone(ts[1..], structure);
    }
  }

  lemma {:induction false} PartialAll(ts: seq<Token>, done: set<string>, structure: Structure)
    requires forall k | k in KeysOf(ts) :: k in done
    ensures Partial(ts, done, structure) == Simultaneous(ts, structure)
  {
    if ts != [] {
      if ts[0].Key? {
        assert ts[0].key in KeysOf(ts);
      }
      assert forall k | k in KeysOf(ts[1..]) :: k in KeysOf(ts);
      PartialAll(ts[1..], done, structure);
    }
  }

  lemma {:induction false} KeysAreLegal(ts: seq<Token>)
    requires LegalKeys(ts)
    ensures forall k | k in KeysOf(ts) :: LegalKey(k)
  {
    if ts != [] {
      KeysAreLegal(ts[1..]);
    }
  }

  /** What one round of the loop does with one captured key. */
  function Step(value: string, key: string, structure: Structure): string {
    if Replaceable(key) then StrReplace(value, KeyText(key), Plucked(structure, key)) else value
  }

  /** The rounds of the loop for a list of captured keys. */
  function Sequential(value: string, keys: seq<string>, structure: Structure): string {
    if keys == [] then value
    else Step(Sequential(value, keys[..|keys| - 1], structure), keys[|keys| - 1], structure)
  }

  function KeySet(keys: seq<string>): set<string> {
    set k | k in keys
  }

  lemma SequentialStep(value: string, keys: seq<string>, key: string, structure: Structure)
    ensures Sequential(value, keys + [key], structure) == Step(Sequential(value, keys, structure), key, structure)
  {
    assert (keys + [key])[..|keys|] == keys;
  }

  /** After the keys seen so far, exactly their tokens have been substituted. */
  lemma {:induction false} SequentialIsPartial(ts: seq<Token>, keys: seq<string>, structure: Structure)
    requires Calm(ts) && LegalKeys(ts) && CalmValues(ts, structure)
    requires forall k | k in keys :: LegalKey(k)
    ensures Sequential(Render(ts), keys, structure) == Render(Partial(ts, KeySet(keys), structure))
  {
    if keys == [] {
      assert KeySet(keys) == {};
      PartialNone(ts, structure);
    } else {
      var init, last := keys[..|keys| - 1], keys[|keys| - 1];
      assert keys == init + [last];
      SequentialIsPartial(ts, init, structure);
      SequentialStep(Render(ts), init, last, structure);
      StepIsPartial(ts, KeySet(init), last, structure);
      assert KeySet(keys) == KeySet(init) + {last};
    }
  }

  /** One round substitutes exactly the tokens of its key. */
  lemma StepIsPartial(ts: seq<Token>, done: set<string>, key: string, structure: Structure)
    requires Calm(ts) && LegalKeys(ts) && CalmValues(ts, structure) && LegalKey(key)
    ensures Step(Render(Partial(ts, done, structure)), key, structure) == Render(Partial(ts, done + {key}, structure))
  {
    PartialIsCalm(ts, done, structure);
    if Replaceable(key) {
      ReplaceIsSubstitution(Partial(ts, done, structure), key, Plucked(structure, key));
      PartialStep(ts, done, key, structure);
    } else {
      PartialUnchanged(ts, done, key, structure);
    }
  }

  /**
    Replacing one key at a time is the simultaneous substitution, for every
    calm template and calm values. Scanning the result shows that no `server.`
    or `env.` placeholder remains and every other placeholder is still there.
  */
  lemma SequentialIsSimultaneous(value: string, structure: Structure)
    requires Calm(Tokenize(value)) && CalmValues(Tokenize(value), structure)
    ensures Sequential(value, MatchAll(value), structure) == Render(Simultaneous(Tokenize(value), structure))
    ensures Tokenize(Sequential(value, MatchAll(value), structure)) == Simultaneous(Tokenize(value), structure)
  {
    var ts, keys := Tokenize(value), MatchAll(value);
    var done := KeySet(keys);
    RenderTokenize(value);
    KeysAreLegal(ts);
    SequentialIsPartial(ts, keys, structure);
    PartialAll(ts, done, structure);
    PartialIsCalm(ts, done, structure);
    TokenizeRender(Partial(ts, done, structure));
  }

  lemma {:induction false} NoOtherBracesIsCalm(ts: seq<Token>)
    requires forall i | 0 <= i < |ts| && ts[i].Chr? :: ts[i].c != '{'
    ensures Calm(ts)
  {
    if ts != [] {
      assert ts[0] != Chr('{');
      NoOtherBracesIsCalm(ts[1..]);
    }
  }

  /**
    The ordinary case: braces occur only in placeholders, and no value has one.
    Written out, filled in key by key and scanned again, the template is the
    template with all its keys filled in.
  */
  lemma PlainTemplates(ts: seq<Token>, structure: Structure)
    requires LegalKeys(ts) && forall i | 0 <= i < |ts| && ts[i].Chr? :: ts[i].c != '{'
    requires forall i | 0 <= i < |ts| && ts[i].Key? :: '{' !in Plucked(structure, ts[i].key)
    ensures MatchAll(Render(ts)) == KeysOf(ts)
    ensures Sequential(Render(ts), KeysOf(ts), structure) == Render(Simultaneous(ts, structure))
    ensures MatchAll(Sequential(Render(ts), KeysOf(ts), structure)) == Untouched(KeysOf(ts))
  {
    NoOtherBracesIsCalm(ts);
    TokenizeRender(ts);
    SequentialIsSimultaneous(Render(ts), structure);
    RemainingPlaceholders(Render(ts), structure);
  }

  lemma {:induction false} KeysOfConcat(ts: seq<Token>, us: seq<Token>)
    ensures KeysOf(ts + us) == KeysOf(ts) + KeysOf(us)
  {
    if ts == [] {
      assert ts + us == us;
    } else {
      assert (ts + us)[1..] == ts[1..] + us;
      KeysOfConcat(ts[1..], us);
    }
  }

  lemma {:induction false} KeysOfChars(v: string)
    ensures KeysOf(Chars(v)) == []
  {
    if v != "" {
      assert Chars(v)[1..] == Chars(v[1..]);
      KeysOfChars(v[1..]);
    }
  }

  function Untouched(keys: seq<string>): seq<string> {
    if keys == [] then []
    else (if Replaceable(keys[0]) then [] else [keys[0]]) + Untouched(keys[1..])
  }

  lemma {:induction false} SimultaneousKeys(ts: seq<Token>, structure: Structure)
    ensures KeysOf(Simultaneous(ts, structure)) == Untouched(KeysOf(ts))
  {
    if ts != [] {
      SimultaneousKeys(ts[1..], structure);
      var head := if ts[0].Key? && Replaceable(ts[0].key) then Chars(Plucked(structure, ts[0].key)) else [ts[0]];
      KeysOfConcat(head, Simultaneous(ts[1..], structure));
      if ts[0].Key? {
        assert KeysOf(ts)[1..] == KeysOf(ts[1..]);
        if Replaceable(ts[0].key) {
          KeysOfChars(Plucked(structure, ts[0].key));
        }
      }
    }
  }

  /**
    The placeholders left in the output are exactly the `config.` and unknown
    ones of the input, in order: nothing the panel should fill in survives.
  */
  lemma RemainingPlaceholders(value: string, structure: Structure)
    requires Calm(Tokenize(value)) && CalmValues(Tokenize(value), structure)
    ensures MatchAll(Sequential(value, MatchAll(value), structure)) == Untouched(MatchAll(value))
  {
    SequentialIsSimultaneous(value, structure);
    SimultaneousKeys(Tokenize(value), structure);
  }

  lemma ReplaceHead(key: string, rest: string, v: string)
    ensures StrReplace(KeyText(key) + rest, KeyText(key), v) == v + StrReplace(rest, KeyText(key), v)
  {
    var s := KeyText(key) + rest;
    assert s[..|KeyText(key)|] == KeyText(key) && s[|KeyText(key)|..] == rest;
  }

  lemma TokenizeKey(key: string, rest: string)
    requires LegalKey(key)
    ensures Tokenize(KeyText(key) + rest) == [Key(key)] + Tokenize(rest)
  {
    KeyMatchesHere(key, rest);
  }

  lemma CancelRight(x: string, y: string, z: string)
    requires x + z == y + z
    ensures x == y
  {
    assert |x + z| == |y + z|;
    assert x == (x + z)[..|x|];
  }

  lemma TokenizePair(a: string, b: string)
    requires LegalKey(a) && LegalKey(b)
    ensures Tokenize(KeyText(a) + KeyText(b)) == [Key(a), Key(b)]
    ensures MatchAll(KeyText(a) + KeyText(b)) == [a, b]
  {
    TokenizeKey(a, KeyText(b));
    TokenizeKey(b, "");
    assert KeyText(b) + "" == KeyText(b);
    assert KeysOf([Key(b)]) == [b];
    assert [Key(a), Key(b)][1..] == [Key(b)];
  }

  lemma SequentialPair(value: string, a: string, b: string, structure: Structure)
    ensures Sequential(value, [a, b], structure) == Step(Step(value, a, structure), b, structure)
  {
    assert [a, b][..1] == [a] && [a][..0] == [];
    assert Sequential(value, [a], structure) == Step(Sequential(value, [], structure), a, structure);
  }

  lemma SimultaneousPair(a: string, b: string, structure: Structure)
    requires Replaceable(a) && Replaceable(b)
    ensures Render(Simultaneous([Key(a), Key(b)], structure)) == Plucked(structure, a) + Plucked(structure, b)
  {
    var v, w := Plucked(structure, a), Plucked(structure, b);
    assert [Key(a), Key(b)][1..] == [Key(b)] && [Key(b)][1..] == [];
    assert Simultaneous([Key(b)], structure) == Chars(w) + [];
    RenderChars(v, Chars(w) + []);
    RenderChars(w, []);
  }

  /**
    Why values must be calm: when the value of one placeholder is the text of
    the next, the loop substitutes twice.
  */
  lemma ValueWithPlaceholderIsReplacedAgain(a: string, b: string, structure: Structure)
    requires LegalKey(a) && LegalKey(b) && a != b && Replaceable(a) && Replaceable(b)
    requires Plucked(structure, a) == KeyText(b) && Plucked(structure, b) != KeyText(b)
    ensures var value, v := KeyText(a) + KeyText(b), Plucked(structure, b);
      && Sequential(value, MatchAll(value), structure) == v + v
      && Render(Simultaneous(Tokenize(value), structure)) == KeyText(b) + v != v + v
  {
    var value, v := KeyText(a) + KeyText(b), Plucked(structure, b);
    TokenizePair(a, b);
    SequentialPair(value, a, b, structure);
    SimultaneousPair(a, b, structure);
    ReplaceHead(a, KeyText(b), KeyText(b));
    SkipOtherKey(b, "", a, KeyText(b));
    assert KeyText(b) + "" == KeyText(b);
    ReplaceHead(b, KeyText(b), v);
    ReplaceHead(b, "", v);
    assert v + "" == v;
    if v + v == KeyText(b) + v {
      CancelRight(v, KeyText(b), v);
    }
  }

  // ---------------------------------------------------------------------
  // Which entry of the configuration a placeholder stands for
  // ---------------------------------------------------------------------

  lemma ShortNames(n: string)
    ensures StartsWith("server." + n, "server.") && ("server." + n)[7..] == n
    ensures StartsWith("env." + n, "env.") && ("env." + n)[4..] == n && !StartsWith("env." + n, "server.")
    ensures !StartsWith("config." + n, "server.") && !StartsWith("config." + n, "env.")
  {
    PrefixAt("env." + n, "server.", 0);
    PrefixAt("config." + n, "server.", 0);
    PrefixAt("config." + n, "env.", 0);
  }

  lemma {:induction false} SimultaneousConcat(a: seq<Token>, b: seq<Token>, structure: Structure)
    ensures Simultaneous(a + b, structure) == Simultaneous(a, structure) + Simultaneous(b, structure)
  {
    if a == [] {
      assert a + b == b;
    } else {
      assert (a + b)[1..] == a[1..] + b;
      SimultaneousConcat(a[1..], b, structure);
    }
  }

  lemma FilledInOne(before: seq<Token>, t: Token, after: seq<Token>, structure: Structure)
    ensures Simultaneous(before + [t] + after, structure) == Simultaneous(before, structure)
      + (if t.Key? && Replaceable(t.key) then Chars(Plucked(structure, t.key)) else [t]) + Simultaneous(after, structure)
  {
    SimultaneousConcat(before + [t], after, structure);
    SimultaneousConcat(before, [t], structure);
    SimultaneousOne(t, structure);
  }

  lemma SimultaneousOne(t: Token, structure: Structure)
    ensures Simultaneous([t], structure) ==
      if t.Key? && Replaceable(t.key) then Chars(Plucked(structure, t.key)) else [t]
  {
    assert [t][1..] == [];
  }

  /**
    Anywhere in a template, `server.` names an entry of the configuration and
    `env.` one below `environment.`; a missing entry is the empty string, and
    everything else stays.
  */
  lemma FilledInPlace(before: seq<Token>, n: string, other: Token, after: seq<Token>, structure: Structure)
    requires other.Key? ==> !StartsWith(other.key, "server.") && !StartsWith(other.key, "env.")
    ensures Simultaneous(before + [Key("server." + n)] + after, structure)
      == Simultaneous(before, structure) + Chars(if n in structure then structure[n] else "")
        + Simultaneous(after, structure)
    ensures var path := "environment." + n;
      Simultaneous(before + [Key("env." + n)] + after, structure)
      == Simultaneous(before, structure) + Chars(if path in structure then structure[path] else "")
        + Simultaneous(after, structure)
    ensures Simultaneous(before + [other] + after, structure)
      == Simultaneous(before, structure) + [other] + Simultaneous(after, structure)
  {
    ShortNames(n);
    FilledInOne(before, Key("server." + n), after, structure);
    FilledInOne(before, Key("env." + n), after, structure);
    FilledInOne(before, other, after, structure);
  }

  /** A template that is one placeholder becomes what one round makes of it. */
  lemma OnePlaceholder(key: string, structure: Structure)
    requires LegalKey(key)
    ensures Sequential(KeyText(key), MatchAll(KeyText(key)), structure) ==
      if Replaceable(key) then Plucked(structure, key) else KeyText(key)
  {
    TokenizeKey(key, "");
    assert KeyText(key) + "" == KeyText(key) && Tokenize("") == [];
    assert Tokenize(KeyText(key)) == [Key(key)];
    assert [Key(key)][1..] == [] && KeysOf([]) == [];
    assert MatchAll(KeyText(key)) == [key] && [key][..0] == [];
    ReplaceHead(key, "", Plucked(structure, key));
    assert Plucked(structure, key) + "" == Plucked(structure, key);
  }

  lemma LegalNames(prefix: string, n: string)
    requires LegalKey(prefix) && forall c | c in n ::
      'a' <= c <= 'z' || 'A' <= c <= 'Z' || '0' <= c <= '9' || c == '_' || c == '.' || c == '-'
    ensures LegalKey(prefix + n)
    ensures "{{" + prefix + n + "}}" == KeyText(prefix + n)
  {
    assert forall i | |prefix| <= i < |prefix + n| :: (prefix + n)[i] == n[i - |prefix|] && n[i - |prefix|] in n;
    assert "{{" + prefix + n + "}}" == "{{" + (prefix + n) + "}}";
  }

  /** The text of a placeholder, written with letters, digits, `_`, `.` and `-` only, becomes the entry it names. */
  lemma PlaceholderBecomesEntry(n: string, structure: Structure)
    requires forall c | c in n ::
      'a' <= c <= 'z' || 'A' <= c <= 'Z' || '0' <= c <= '9' || c == '_' || c == '.' || c == '-'
    ensures var text, path := "{{" + "env." + n + "}}", "environment." + n;
      Sequential(text, MatchAll(text), structure) == if path in structure then structure[path] else ""
    ensures var text := "{{" + "server." + n + "}}";
      Sequential(text, MatchAll(text), structure) == if n in structure then structure[n] else ""
    ensures var text := "{{" + "config." + n + "}}";
      Sequential(text, MatchAll(text), structure) == text
  {
    ShortNames(n);
    LegalNames("env.", n);
    LegalNames("server.", n);
    LegalNames("config.", n);
    OnePlaceholder("env." + n, structure);
    OnePlaceholder("server." + n, structure);
    OnePlaceholder("config." + n, structure);
  }

  lemma {:induction false} NoBraceNoKey(s: string)
    requires '{' !in s
    ensures MatchAll(s) == []
  {
    if s != "" {
      PrefixAt(s, "{{", 0);
      NoBraceNoKey(s[1..]);
      assert Tokenize(s)[1..] == Tokenize(s[1..]);
    }
  }

  lemma NoMatchFirst(s: string)
    requires s != "" && !MatchesHere(s)
    ensures MatchAll(s) == MatchAll(s[1..])
  {
    assert Tokenize(s)[1..] == Tokenize(s[1..]);
  }

  lemma BrokenRun(a: string, c: char, b: string)
    requires '}' !in a && c != '}' && !KeyChar(c)
    ensures !MatchesHere("{{" + (a + [c] + b))
  {
    var rest := a + [c] + b;
    var n := RunLength(rest);
    assert ("{{" + rest)[2..] == rest;
    assert n <= |a| by {
      assert forall i | 0 <= i < n :: KeyChar(rest[..n][i]);
      assert rest[|a|] == c;
    }
    assert rest[n] == if n < |a| then a[n] else c;
    PrefixAt(rest[n..], "}}", 0);
  }

  /** One character that is not a letter, a digit, `_`, `.` or `-`, nor a brace, and the text stays as it is. */
  lemma OtherCharactersMakeNoPlaceholder(a: string, c: char, b: string, structure: Structure)
    requires '{' !in a && '}' !in a && c != '{' && c != '}' && '{' !in b
    requires !('a' <= c <= 'z' || 'A' <= c <= 'Z' || '0' <= c <= '9' || c == '_' || c == '.' || c == '-')
    ensures var text := "{{" + (a + [c] + (b + "}}"));
      MatchAll(text) == [] && Sequential(text, MatchAll(text), structure) == text
  {
    BrokenRun(a, c, b + "}}");
    NothingAfterBraces(a + [c] + (b + "}}"));
  }

  lemma NothingAfterBraces(rest: string)
    requires '{' !in rest && !MatchesHere("{{" + rest)
    ensures MatchAll("{{" + rest) == []
  {
    var text := "{{" + rest;
    NoMatchFirst(text);
    assert text[1..] == "{" + rest;
    PrefixAt(text[1..], "{{", 1);
    NoMatchFirst(text[1..]);
    assert text[1..][1..] == rest;
    NoBraceNoKey(rest);
  }

  method MatchAndReplaceKeys(value: string, structure: Structure) returns (r: string)
    ensures r == Sequential(value, MatchAll(value), structure)
    ensures Calm(Tokenize(value)) && CalmValues(Tokenize(value), structure) ==>
      r == Render(Simultaneous(Tokenize(value), structure))
  {
    var keys := MatchAll(value);
    r := value;
    for n := 0 to |keys|
      invariant r == Sequential(value, keys[..n], structure)
    {
      var key := keys[n];
      assert keys[..n + 1][..n] == keys[..n];
      if !StartsWith(key, "server.") && !StartsWith(key, "env.") && !StartsWith(key, "config.") {
        continue;
      }
      if StartsWith(key, "config.") {
        PrefixAt(key, "config.", 0);
        PrefixAt(key, "server.", 0);
        PrefixAt(key, "env.", 0);
        continue;
      }
      if StartsWith(key, "server.") {
        r := StrReplace(r, KeyText(key), Get(structure, key[7..]));
        continue;
      }
      r := StrReplace(r, KeyText(key), Get(structure, "environment." + key[4..]));
    }
    assert keys[..|keys|] == keys;
    if Calm(Tokenize(value)) && CalmValues(Tokenize(value), structure) {
      SequentialIsSimultaneous(value, structure);
    }
  }

  // ---------------------------------------------------------------------
  // Nested configuration data
  // ---------------------------------------------------------------------

  /** Decoded JSON: `Dict` is a PHP array or object, in iteration order. */
  datatype Data =
    | Text(text: string)
    | Scalar(value: int)
    | Null
    | Dict(isObject: bool, entries: seq<(string, Data)>)

  /** A leaf below the root: strings are substituted, everything else is kept. */
  function ReplacedLeaf(leaf: Data, structure: Structure): Data
    requires !leaf.Dict?
  {
    match leaf
    case Text(s) => Text(Sequential(s, MatchAll(s), structure))
    case _ => leaf
  }

  function Replaced(data: Data, structure: Structure): Data {
    if !data.Dict? then ReplacedLeaf(data, structure)
    else Dict(data.isObject, seq(|data.entries|, i requires 0 <= i < |data.entries| =>
      (data.entries[i].0, Replaced(data.entries[i].1, structure))))
  }

  /** `iterate`: a root that is not iterable is returned as it is. */
  method Iterate(data: Data, structure: Structure) returns (r: Data)
    ensures r == if data.Dict? then Replaced(data, structure) else data
    decreases data
  {
    if !data.Dict? {
      return data;
    }
    var clone := data.entries;
    for i := 0 to |data.entries|
      invariant |clone| == |data.entries|
      invariant forall j | 0 <= j < i ::
        clone[j] == (data.entries[j].0, Replaced(data.entries[j].1, structure))
      invariant forall j | i <= j < |clone| :: clone[j] == data.entries[j]
    {
      var (key, value) := clone[i];
      var replaced: Data;
      match value {
        case Dict(_, _) =>
          replaced := Iterate(value, structure);
        case Text(s) =>
          var text := MatchAndReplaceKeys(s, structure);
          replaced := Text(text);
        case _ =>
          replaced := value;
      }
      clone := clone[i := (key, replaced)];
    }
    r := Dict(data.isObject, clone);
    assert r.entries == Replaced(data, structure).entries;
  }

  /** The data found below a path of entry positions. */
  function At(data: Data, path: seq<nat>): (r: Option<Data>)
    decreases |path|
  {
    if path == [] then Some(data)
    else if data.Dict? && path[0] < |data.entries| then At(data.entries[path[0]].1, path[1..])
    else None
  }

  /** The keys met on the way down a path. */
  function Names(data: Data, path: seq<nat>): seq<string>
    decreases |path|
  {
    if path == [] || !data.Dict? || path[0] >= |data.entries| then []
    else [data.entries[path[0]].0] + Names(data.entries[path[0]].1, path[1..])
  }

  /**
    The substitution reaches every string of the tree and nothing else: the
    result has the same paths, the same keys on each of them, containers of the
    same kind and size, and the same non-string leaves.
  */
  lemma {:induction false} IterateKeepsShape(data: Data, structure: Structure, path: seq<nat>)
    ensures Names(Replaced(data, structure), path) == Names(data, path)
    ensures match At(data, path)
      case None => At(Replaced(data, structure), path) == None
      case Some(d) =>
        && At(Replaced(data, structure), path).Some?
        && var e := At(Replaced(data, structure), path).value;
        match d
        case Dict(isObject, entries) => e.Dict? && e.isObject == isObject && |e.entries| == |entries|
        case Text(s) => e == Text(Sequential(s, MatchAll(s), structure))
        case _ => e == d
    decreases |path|
  {
    if path != [] && data.Dict? && path[0] < |data.entries| {
      IterateKeepsShape(data.entries[path[0]].1, structure, path[1..]);
    }
  }
}
