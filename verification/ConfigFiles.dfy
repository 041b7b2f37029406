/**
  The configuration files of an egg, with placeholders substituted and the nested
  `find` data flattened into a list of rules
  (`replacePlaceholders` of app/Services/Eggs/EggConfigurationService.php).
*/
module ConfigFiles {
  import opened Wrappers
  import opened Placeholders

  type Entries = seq<(string, Data)>

  datatype Rule =
    | Always(find: string, with: Data)
    | IfValue(find: string, value: string, with: Data)

  /** What the daemon gets for one file: its rules, and all other settings as they were. */
  datatype FileConfig = FileConfig(file: string, other: Entries, replace: seq<Rule>)

  datatype Error = NotIterable

  // ---------------------------------------------------------------------
  // Flattening
  // ---------------------------------------------------------------------

  /** An object gives one conditional rule per member, anything else one rule. */
  function RulesFor(find: string, value: Data): seq<Rule> {
    if value.Dict? && value.isObject then
      seq(|value.entries|, j requires 0 <= j < |value.entries| =>
        IfValue(find, value.entries[j].0, value.entries[j].1))
    else [Always(find, value)]
  }

  function Rules(entries: Entries): seq<Rule> {
    if entries == [] then []
    else Rules(entries[..|entries| - 1]) + RulesFor(entries[|entries| - 1].0, entries[|entries| - 1].1)
  }

  lemma RulesStep(entries: Entries, n: nat)
    requires n < |entries|
    ensures Rules(entries[..n + 1]) == Rules(entries[..n]) + RulesFor(entries[n].0, entries[n].1)
  {
    assert entries[..n + 1][..n] == entries[..n];
  }

  /** The rule says what some place of the nested data says. */
  predicate Says(entry: (string, Data), rule: Rule) {
    match rule
    case Always(find, with) => entry == (find, with) && !(with.Dict? && with.isObject)
    case IfValue(find, value, with) =>
      entry.0 == find && entry.1.Dict? && entry.1.isObject && (value, with) in entry.1.entries
  }

  lemma RulesForSay(entry: (string, Data), rule: Rule)
    ensures rule in RulesFor(entry.0, entry.1) <==> Says(entry, rule)
  {
    if entry.1.Dict? && entry.1.isObject {
      var members, rules := entry.1.entries, RulesFor(entry.0, entry.1);
      assert forall j | 0 <= j < |members| :: rules[j] == IfValue(entry.0, members[j].0, members[j].1);
      if Says(entry, rule) {
        var j :| 0 <= j < |members| && members[j] == (rule.value, rule.with);
        assert rules[j] == rule;
      }
    }
  }

  /** Nothing is lost and nothing invented: the rules are exactly what the nested data says. */
  lemma {:induction false} RulesSayTheSame(entries: Entries, rule: Rule)
    ensures rule in Rules(entries) <==> exists entry | entry in entries :: Says(entry, rule)
  {
    if entries != [] {
      var init, last := entries[..|entries| - 1], entries[|entries| - 1];
      RulesSayTheSame(init, rule);
      RulesForSay(last, rule);
      assert entries == init + [last];
    }
  }

  // ---------------------------------------------------------------------
  // Flattening and substitution commute
  // ---------------------------------------------------------------------

  function ReplacedEntries(entries: Entries, structure: Structure): (r: Entries)
    ensures |r| == |entries|
    ensures forall i | 0 <= i < |entries| :: r[i] == (entries[i].0, Replaced(entries[i].1, structure))
  {
    seq(|entries|, i requires 0 <= i < |entries| => (entries[i].0, Replaced(entries[i].1, structure)))
  }

  /** Only what is written changes, never what is looked for. */
  function ReplacedRules(rules: seq<Rule>, structure: Structure): (r: seq<Rule>)
    ensures |r| == |rules|
    ensures forall i | 0 <= i < |rules| :: r[i] == rules[i].(with := Replaced(rules[i].with, structure))
  {
    seq(|rules|, i requires 0 <= i < |rules| => rules[i].(with := Replaced(rules[i].with, structure)))
  }

  lemma ReplacedDict(data: Data, structure: Structure)
    requires data.Dict?
    ensures Replaced(data, structure) == Dict(data.isObject, ReplacedEntries(data.entries, structure))
  {
    assert Replaced(data, structure).entries == ReplacedEntries(data.entries, structure);
  }

  lemma RulesForReplaced(find: string, value: Data, structure: Structure)
    ensures RulesFor(find, Replaced(value, structure)) == ReplacedRules(RulesFor(find, value), structure)
  {
    if value.Dict? {
      ReplacedDict(value, structure);
    }
  }

  /** Substituting in the nested data and flattening is flattening and substituting in each rule. */
  lemma {:induction false} FlatteningCommutes(entries: Entries, structure: Structure)
    ensures Rules(ReplacedEntries(entries, structure)) == ReplacedRules(Rules(entries), structure)
  {
    if entries != [] {
      var init, last := entries[..|entries| - 1], entries[|entries| - 1];
      var replaced := ReplacedEntries(entries, structure);
      FlatteningCommutes(init, structure);
      assert replaced[..|entries| - 1] == ReplacedEntries(init, structure);
      RulesForReplaced(last.0, last.1, structure);
    }
  }

  // ---------------------------------------------------------------------
  // The service
  // ---------------------------------------------------------------------

  function Lookup(entries: Entries, name: string): Option<Data> {
    if entries == [] then None
    else if entries[0].0 == name then Some(entries[0].1)
    else Lookup(entries[1..], name)
  }

  /** An object with a `find` that is set; other files are skipped. */
  predicate Usable(data: Data) {
    data.Dict? && data.isObject && Lookup(data.entries, "find").Some? && !Lookup(data.entries, "find").value.Null?
  }

  /** `foreach` needs an array or object. */
  predicate Iterable(data: Data) {
    Usable(data) ==> Lookup(data.entries, "find").value.Dict?
  }

  function Others(entries: Entries): Entries {
    if entries == [] then []
    else
      (if entries[0].0 in ["find", "file", "replace"] then [] else [entries[0]]) + Others(entries[1..])
  }

  /** One file: its rules are those of its `find` data, with every value substituted. */
  function ConfigFor(file: string, data: Data, structure: Structure): FileConfig
    requires Usable(data) && Iterable(data)
  {
    FileConfig(file, Others(data.entries),
      ReplacedRules(Rules(Lookup(data.entries, "find").value.entries), structure))
  }

  /** The usable files, in order. */
  function Response(configs: Entries, structure: Structure): seq<FileConfig>
    requires forall i | 0 <= i < |configs| :: Iterable(configs[i].1)
  {
    if configs == [] then []
    else
      var (file, data) := configs[|configs| - 1];
      Response(configs[..|configs| - 1], structure)
        + (if Usable(data) then [ConfigFor(file, data, structure)] else [])
  }

  method ReplacePlaceholders(configs: Entries, structure: Structure) returns (r: Result<seq<FileConfig>, Error>)
    ensures r.Success? <==> forall i | 0 <= i < |configs| :: Iterable(configs[i].1)
    ensures r.Success? ==> r.value == Response(configs, structure)
  {
    var response: seq<FileConfig> := [];
    for i := 0 to |configs|
      invariant forall k | 0 <= k < i :: Iterable(configs[k].1)
      invariant response == Response(configs[..i], structure)
    {
      var (file, data) := configs[i];
      assert configs[..i + 1][..i] == configs[..i];
      if !Usable(data) {
        continue;
      }
      var find := Lookup(data.entries, "find").value;
      var iterated := Iterate(find, structure);
      if !iterated.Dict? {
        return Failure(NotIterable);
      }
      ReplacedDict(find, structure);
      FlatteningCommutes(find.entries, structure);
      var replace := Flatten(iterated.entries);
      response := response + [FileConfig(file, Others(data.entries), replace)];
    }
    assert configs[..|configs|] == configs;
    return Success(response);
  }

  /** The two inner loops. */
  method Flatten(entries: Entries) returns (replace: seq<Rule>)
    ensures replace == Rules(entries)
  {
    replace := [];
    for i := 0 to |entries|
      invariant replace == Rules(entries[..i])
    {
      var (find, value) := entries[i];
      RulesStep(entries, i);
      if value.Dict? && value.isObject {
        var members := value.entries;
        for j := 0 to |members|
          invariant replace == Rules(entries[..i]) + RulesFor(find, value)[..j]
        {
          replace := replace + [IfValue(find, members[j].0, members[j].1)];
        }
        continue;
      }
      replace := replace + [Always(find, value)];
    }
    assert entries[..|entries|] == entries;
  }

  // ---------------------------------------------------------------------
  // What becomes of a file
  // ---------------------------------------------------------------------

  /** A file's other settings arrive unchanged and in order: all but `find`, `file` and `replace`. */
  lemma {:induction false} SettingsArrive(before: Entries, entry: (string, Data), after: Entries)
    ensures Others(before + [entry] + after) == Others(before)
      + (if entry.0 == "find" || entry.0 == "file" || entry.0 == "replace" then [] else [entry]) + Others(after)
  {
    if before == [] {
      assert [] + [entry] + after == [entry] + after && ([entry] + after)[1..] == after;
    } else {
      var all := before + [entry] + after;
      assert all[0] == before[0] && all[1..] == before[1..] + [entry] + after;
      SettingsArrive(before[1..], entry, after);
    }
  }

  predicate HasKey(entries: Entries, name: string) {
    exists e | e in entries :: e.0 == name
  }

  lemma {:induction false} LookupIs(before: Entries, name: string, value: Data, after: Entries)
    requires !HasKey(before, name)
    ensures Lookup(before + [(name, value)] + after, name) == Some(value)
  {
    if before != [] {
      assert before[0] in before && forall e | e in before[1..] :: e in before;
      assert (before + [(name, value)] + after)[1..] == before[1..] + [(name, value)] + after;
      LookupIs(before[1..], name, value, after);
    }
  }

  lemma {:induction false} LookupFails(entries: Entries, name: string)
    requires !HasKey(entries, name)
    ensures Lookup(entries, name) == None
  {
    if entries != [] {
      assert entries[0] in entries && forall e | e in entries[1..] :: e in entries;
      LookupFails(entries[1..], name);
    }
  }

  lemma FileWithFind(file: string, entries: Entries, find: Data, structure: Structure)
    requires Lookup(entries, "find") == Some(find)
    ensures Iterable(Dict(true, entries)) <==> find.Null? || find.Dict?
    ensures find.Null? ==> Response([(file, Dict(true, entries))], structure) == []
    ensures find.Dict? ==> (Response([(file, Dict(true, entries))], structure)
      == [FileConfig(file, Others(entries), ReplacedRules(Rules(find.entries), structure))])
  {
    var one := [(file, Dict(true, entries))];
    assert one[..0] == [];
    assert Usable(Dict(true, entries)) <==> !find.Null?;
  }

  /**
    A file with `find` data arrives under its name, with all its other settings
    and with the rules of its `find` data, values substituted; one whose `find`
    is null is skipped, and any other `find` fails.
  */
  lemma FileArrives(file: string, before: Entries, find: Data, after: Entries, structure: Structure)
    requires !HasKey(before, "find")
    ensures var data := Dict(true, before + [("find", find)] + after);
      && (Iterable(data) <==> find.Null? || find.Dict?)
      && (find.Null? ==> Response([(file, data)], structure) == [])
      && (find.Dict? ==>
        Response([(file, data)], structure) ==
        [FileConfig(file, Others(before) + Others(after), ReplacedRules(Rules(find.entries), structure))])
  {
    LookupIs(before, "find", find, after);
    SettingsArrive(before, ("find", find), after);
    assert Others(before) + [] == Others(before);
    FileWithFind(file, before + [("find", find)] + after, find, structure);
  }

  /** What has no `find` at all, or is no object, is skipped. */
  lemma OtherFilesAreSkipped(file: string, data: Data, structure: Structure)
    requires data.Dict? && data.isObject ==> !HasKey(data.entries, "find")
    ensures Iterable(data) && Response([(file, data)], structure) == []
  {
    if data.Dict? && data.isObject {
      LookupFails(data.entries, "find");
    }
    assert [(file, data)][..0] == [];
  }

  /** The files of two lists arrive one list after the other. */
  lemma {:induction false} FilesInOrder(a: Entries, b: Entries, structure: Structure)
    requires forall i | 0 <= i < |a| :: Iterable(a[i].1)
    requires forall i | 0 <= i < |b| :: Iterable(b[i].1)
    ensures forall i | 0 <= i < |a + b| :: Iterable((a + b)[i].1)
    ensures Response(a + b, structure) == Response(a, structure) + Response(b, structure)
    decreases |b|
  {
    if b == [] {
      assert a + b == a;
    } else {
      var init := b[..|b| - 1];
      FilesInOrder(a, init, structure);
      assert (a + b)[..|a + b| - 1] == a + init;
    }
  }
}
