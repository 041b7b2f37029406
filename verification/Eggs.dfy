/**
  Variables of a server: carrying their values over to another egg, and the
  environment built from them (app/Services/Eggs/EggChangerService.php,
  app/Services/Servers/EnvironmentService.php, app/Models/EggVariable.php).
*/
module Eggs {
  import opened Wrappers

  type Id = nat
  type Name = string

  datatype Egg = Egg(images: seq<string>, startup: string)
  datatype Variable = Variable(egg: Id, name: Name, default: string)
  datatype Server = Server(egg: Id, image: string, startup: string, uuid: string)
  datatype Row = Row(server: Id, variable: Id, value: string)

  /** Eggs and their variables, which a change of egg only reads. */
  datatype Catalogue = Catalogue(eggs: map<Id, Egg>, variables: map<Id, Variable>)

  /** Names that validation keeps out of `env_variable`. */
  const RESERVED: set<Name> := {
    "P_SERVER_UUID", "P_SERVER_ALLOCATION_LIMIT", "SERVER_MEMORY", "SERVER_IP", "SERVER_PORT", "ENV", "HOME",
    "USER", "STARTUP", "MODIFIED_STARTUP", "SERVER_UUID", "UUID", "INTERNAL_IP", "HOSTNAME", "TERM", "LANG",
    "PWD", "TZ", "TIMEZONE"
  }

  /** The unique key (egg, name), the validation rule on names, and the foreign key to eggs. */
  ghost predicate ValidCatalogue(c: Catalogue) {
    && (forall v, w | v in c.variables && w in c.variables
      && c.variables[v].egg == c.variables[w].egg && c.variables[v].name == c.variables[w].name :: v == w)
    && (forall v | v in c.variables :: c.variables[v].name !in RESERVED)
    && (forall v | v in c.variables :: c.variables[v].egg in c.eggs)
  }

  function VariablesOf(c: Catalogue, egg: Id): set<Id> {
    set v | v in c.variables && c.variables[v].egg == egg
  }

  function NamesOf(c: Catalogue, egg: Id): set<Name> {
    set v | v in VariablesOf(c, egg) :: c.variables[v].name
  }

  ghost predicate ValidRows(c: Catalogue, rows: map<Id, Row>) {
    forall i | i in rows :: rows[i].variable in c.variables
  }

  function RowsOf(rows: map<Id, Row>, server: Id): set<Id> {
    set i | i in rows && rows[i].server == server
  }

  /** The rows of a server give each name of `values` its value, by exactly one row, and nothing else. */
  ghost predicate Stores(c: Catalogue, rows: map<Id, Row>, server: Id, values: map<Name, string>)
    requires ValidRows(c, rows)
  {
    && (forall i | i in RowsOf(rows, server) ::
      (var n := c.variables[rows[i].variable].name; n in values && values[n] == rows[i].value))
    && (forall n | n in values :: exists i | i in RowsOf(rows, server) :: c.variables[rows[i].variable].name == n)
    && (forall i, j | i in RowsOf(rows, server) && j in RowsOf(rows, server)
      && c.variables[rows[i].variable].name == c.variables[rows[j].variable].name :: i == j)
  }

  predicate HasRow(rows: map<Id, Row>, server: Id, v: Id) {
    exists i | i in RowsOf(rows, server) :: rows[i].variable == v
  }

  ghost predicate RowsBelong(c: Catalogue, rows: map<Id, Row>, server: Id, egg: Id)
    requires ValidRows(c, rows)
  {
    forall i | i in RowsOf(rows, server) :: c.variables[rows[i].variable].egg == egg
  }

  predicate OthersUntouched(rows: map<Id, Row>, rows': map<Id, Row>, server: Id) {
    && (forall i | i in rows && rows[i].server != server :: i in rows' && rows'[i] == rows[i])
    && (forall i | i in rows' && rows'[i].server != server :: i in rows)
  }

  /** For every name that the rows of a server mention, the value of one of these rows. */
  ghost predicate OldValues(c: Catalogue, rows: map<Id, Row>, server: Id, earlier: map<Name, string>)
    requires ValidRows(c, rows)
  {
    && (forall i | i in RowsOf(rows, server) :: c.variables[rows[i].variable].name in earlier)
    && (forall n | n in earlier :: exists i | i in RowsOf(rows, server) ::
      c.variables[rows[i].variable].name == n && rows[i].value == earlier[n])
  }

  /** The default that an egg gives a name. */
  ghost function DefaultOf(c: Catalogue, egg: Id, n: Name): string {
    if v :| v in VariablesOf(c, egg) && c.variables[v].name == n then c.variables[v].default else ""
  }

  /** Shared names keep their value, the other names of the egg take its default. */
  ghost function Carried(c: Catalogue, values: map<Name, string>, egg: Id): map<Name, string> {
    map n | n in NamesOf(c, egg) :: if n in values then values[n] else DefaultOf(c, egg, n)
  }

  lemma NameDetermines(c: Catalogue, egg: Id, v: Id)
    requires ValidCatalogue(c) && v in VariablesOf(c, egg)
    ensures c.variables[v].name in NamesOf(c, egg)
    ensures DefaultOf(c, egg, c.variables[v].name) == c.variables[v].default
  {
    assert exists w :: w in VariablesOf(c, egg) && c.variables[w].name == c.variables[v].name;
  }

  /** Consistent rows leave no choice for the old values. */
  lemma StoredAreOld(c: Catalogue, rows: map<Id, Row>, server: Id, values: map<Name, string>, earlier: map<Name, string>)
    requires ValidRows(c, rows) && Stores(c, rows, server, values) && OldValues(c, rows, server, earlier)
    ensures earlier == values
  {
    forall n
      ensures n in earlier <==> n in values
    {
    }
    forall n | n in earlier
      ensures earlier[n] == values[n]
    {
      var i :| i in RowsOf(rows, server) && c.variables[rows[i].variable].name == n && rows[i].value == earlier[n];
    }
  }

  // ---------------------------------------------------------------------
  // Changing the egg
  // ---------------------------------------------------------------------

  datatype Error = NoSuchEgg | NoImage

  class VariableStore {
    const catalogue: Catalogue
    var servers: map<Id, Server>
    var rows: map<Id, Row>
    var lastRow: Id

    ghost predicate Valid()
      reads this
    {
      && ValidCatalogue(catalogue) && ValidRows(catalogue, rows)
      && (forall i | i in rows :: i <= lastRow)
    }

    constructor (catalogue: Catalogue, servers: map<Id, Server>)
      requires ValidCatalogue(catalogue)
      ensures Valid() && this.catalogue == catalogue && this.servers == servers && rows == map[]
    {
      this.catalogue, this.servers, rows, lastRow := catalogue, servers, map[], 0;
    }

    /** A copy of the server's values, by name. */
    method CopyValues(server: Id) returns (copy: map<Name, string>)
      requires Valid()
      ensures OldValues(catalogue, rows, server, copy)
    {
      copy := map[];
      var todo := RowsOf(rows, server);
      while todo != {}
        invariant todo <= RowsOf(rows, server)
        invariant forall i | i in RowsOf(rows, server) && i !in todo ::
          catalogue.variables[rows[i].variable].name in copy
        invariant forall n | n in copy :: exists i | i in RowsOf(rows, server) ::
          catalogue.variables[rows[i].variable].name == n && rows[i].value == copy[n]
        decreases |todo|
      {
        var i :| i in todo;
        copy := copy[catalogue.variables[rows[i].variable].name := rows[i].value];
        todo := todo - {i};
      }
    }

    method CreateRows(server: Id, egg: Id, values: map<Name, string>)
      requires Valid() && RowsOf(rows, server) == {}
      modifies this`rows, this`lastRow
      ensures Valid() && OthersUntouched(old(rows), rows, server)
      ensures RowsBelong(catalogue, rows, server, egg)
      ensures Stores(catalogue, rows, server, Carried(catalogue, values, egg))
    {
      var all := VariablesOf(catalogue, egg);
      ghost var done: set<Id> := {};
      var todo := all;
      while todo != {}
        invariant done + todo == all && done !! todo
        invariant Valid() && OthersUntouched(old(rows), rows, server)
        invariant RowsFor(catalogue, rows, server, values, done)
        decreases todo
      {
        var v :| v in todo;
        lastRow := lastRow + 1;
        RowsForStep(catalogue, rows, server, values, done, lastRow, v);
        rows := rows[lastRow := Row(server, v, ValueFor(catalogue, values, v))];
        todo, done := todo - {v}, done + {v};
      }
      assert done == all;
      RowsStoreCarried(catalogue, rows, server, egg, values);
    }

    /** `EggChangerService`. */
    method ChangeEgg(server: Id, newEgg: Id, keepOldVariables: bool)
        returns (r: Result<(), Error>, ghost copy: map<Name, string>)
      requires Valid() && server in servers
      modifies this
      ensures Valid()
      ensures r == (if newEgg !in catalogue.eggs then Failure(NoSuchEgg)
        else if old(servers)[server].egg != newEgg && catalogue.eggs[newEgg].images == [] then Failure(NoImage)
        else Success(()))
      ensures r.Failure? || old(servers)[server].egg == newEgg ==> servers == old(servers) && rows == old(rows)
      ensures r.Success? && old(servers)[server].egg != newEgg ==>
        && servers == old(servers)[server := Server(newEgg, catalogue.eggs[newEgg].images[0],
          catalogue.eggs[newEgg].startup, old(servers)[server].uuid)]
        && OthersUntouched(old(rows), rows, server)
        && OldValues(catalogue, old(rows), server, copy)
        && RowsBelong(catalogue, rows, server, newEgg)
        && Stores(catalogue, rows, server, Carried(catalogue, if keepOldVariables then copy else map[], newEgg))
    {
      copy := map[];
      if newEgg !in catalogue.eggs {
        return Failure(NoSuchEgg), copy;
      }
      if servers[server].egg == newEgg {
        return Success(()), copy;
      }
      var egg := catalogue.eggs[newEgg];
      if egg.images == [] {
        return Failure(NoImage), copy;
      }
      servers := servers[server := servers[server].(egg := newEgg, image := egg.images[0], startup := egg.startup)];
      var oldVariables: map<Name, string> := map[];
      var values := CopyValues(server);
      copy := values;
      if keepOldVariables {
        oldVariables := values;
      }
      rows := map i | i in rows && rows[i].server != server :: rows[i];
      CreateRows(server, newEgg, oldVariables);
      return Success(()), copy;
    }
  }

  function ValueFor(c: Catalogue, values: map<Name, string>, v: Id): string
    requires v in c.variables
  {
    if c.variables[v].name in values then values[c.variables[v].name] else c.variables[v].default
  }

  /** Exactly one row of the server for each variable of a set, with the carried or default value. */
  ghost predicate RowsFor(c: Catalogue, rows: map<Id, Row>, server: Id, values: map<Name, string>, done: set<Id>)
    requires ValidRows(c, rows)
  {
    && (forall i | i in RowsOf(rows, server) ::
      (rows[i].variable in done && rows[i].value == ValueFor(c, values, rows[i].variable)))
    && (forall v | v in done :: HasRow(rows, server, v))
    && (forall i, j | i in RowsOf(rows, server) && j in RowsOf(rows, server)
      && rows[i].variable == rows[j].variable :: i == j)
  }

  lemma RowsForStep(c: Catalogue, rows: map<Id, Row>, server: Id, values: map<Name, string>, done: set<Id>, id: Id, v: Id)
    requires ValidRows(c, rows) && RowsFor(c, rows, server, values, done)
    requires id !in rows && v in c.variables && v !in done
    ensures var rows' := rows[id := Row(server, v, ValueFor(c, values, v))];
      ValidRows(c, rows') && RowsFor(c, rows', server, values, done + {v})
  {
    var rows' := rows[id := Row(server, v, ValueFor(c, values, v))];
    assert RowsOf(rows', server) == RowsOf(rows, server) + {id};
    assert id in RowsOf(rows', server) && rows'[id].variable == v;
    forall w | w in done
      ensures HasRow(rows', server, w)
    {
      assert HasRow(rows, server, w);
      var i :| i in RowsOf(rows, server) && rows[i].variable == w;
      assert i in RowsOf(rows', server) && rows'[i].variable == w;
    }
  }

  lemma RowsStoreCarried(c: Catalogue, rows: map<Id, Row>, server: Id, egg: Id, values: map<Name, string>)
    requires ValidCatalogue(c) && ValidRows(c, rows)
    requires RowsFor(c, rows, server, values, VariablesOf(c, egg))
    ensures Stores(c, rows, server, Carried(c, values, egg)) && RowsBelong(c, rows, server, egg)
  {
    forall i | i in RowsOf(rows, server)
      ensures c.variables[rows[i].variable].name in NamesOf(c, egg)
      ensures DefaultOf(c, egg, c.variables[rows[i].variable].name) == c.variables[rows[i].variable].default
    {
      NameDetermines(c, egg, rows[i].variable);
    }
    forall n | n in NamesOf(c, egg)
      ensures exists i | i in RowsOf(rows, server) :: c.variables[rows[i].variable].name == n
    {
      var v :| v in VariablesOf(c, egg) && c.variables[v].name == n;
      var i :| i in RowsOf(rows, server) && rows[i].variable == v;
    }
  }

  /** A row of the server for a variable of this name, with this value. */
  predicate NamedRow(c: Catalogue, rows: map<Id, Row>, server: Id, i: Id, n: Name) {
    i in rows && rows[i].server == server && rows[i].variable in c.variables && c.variables[rows[i].variable].name == n
  }

  lemma VariableHasRow(c: Catalogue, rows: map<Id, Row>, server: Id, egg: Id, values: map<Name, string>, v: Id)
    requires ValidCatalogue(c) && ValidRows(c, rows) && v in VariablesOf(c, egg)
    requires RowsBelong(c, rows, server, egg) && Stores(c, rows, server, Carried(c, values, egg))
    ensures exists i | i in rows :: rows[i].server == server && rows[i].variable == v
  {
    NameDetermines(c, egg, v);
    var n := c.variables[v].name;
    assert n in Carried(c, values, egg);
    var i :| i in RowsOf(rows, server) && c.variables[rows[i].variable].name == n;
    assert rows[i].variable == v;
  }

  lemma RowIsCarried(c: Catalogue, rows: map<Id, Row>, server: Id, egg: Id, values: map<Name, string>, i: Id)
    requires ValidCatalogue(c) && ValidRows(c, rows) && i in RowsOf(rows, server)
    requires RowsBelong(c, rows, server, egg) && Stores(c, rows, server, Carried(c, values, egg))
    ensures var v := rows[i].variable;
      v in VariablesOf(c, egg) && rows[i].value ==
        if c.variables[v].name in values then values[c.variables[v].name] else c.variables[v].default
  {
    NameDetermines(c, egg, rows[i].variable);
  }

  /** A change of egg leaves one row for each variable of the new egg, and no others. */
  lemma RowsAfterChange(c: Catalogue, rows: map<Id, Row>, server: Id, egg: Id, values: map<Name, string>)
    requires ValidCatalogue(c) && ValidRows(c, rows)
    requires RowsBelong(c, rows, server, egg) && Stores(c, rows, server, Carried(c, values, egg))
    ensures forall i | i in rows && rows[i].server == server :: c.variables[rows[i].variable].egg == egg
    ensures forall v | v in c.variables && c.variables[v].egg == egg ::
      exists i | i in rows :: rows[i].server == server && rows[i].variable == v
    ensures forall i, j | i in rows && j in rows && rows[i].server == server && rows[j].server == server
      && rows[i].variable == rows[j].variable :: i == j
  {
    assert forall i | i in rows && rows[i].server == server :: i in RowsOf(rows, server);
    forall v | v in c.variables && c.variables[v].egg == egg
      ensures exists i | i in rows :: rows[i].server == server && rows[i].variable == v
    {
      VariableHasRow(c, rows, server, egg, values, v);
    }
  }

  /**
    The value of each of these rows is that of an old row of the same name, if old
    variables are kept and there is one, and otherwise the default.
  */
  lemma ValueAfterChange(c: Catalogue, rows: map<Id, Row>, rows': map<Id, Row>, server: Id, egg: Id,
      copy: map<Name, string>, keep: bool, i: Id)
    requires ValidCatalogue(c) && ValidRows(c, rows) && ValidRows(c, rows') && OldValues(c, rows, server, copy)
    requires RowsBelong(c, rows', server, egg) && Stores(c, rows', server, Carried(c, if keep then copy else map[], egg))
    requires i in rows' && rows'[i].server == server
    ensures var n := c.variables[rows'[i].variable].name;
      if keep && exists j :: NamedRow(c, rows, server, j, n)
      then exists j :: NamedRow(c, rows, server, j, n) && rows[j].value == rows'[i].value
      else rows'[i].value == c.variables[rows'[i].variable].default
  {
    RowIsCarried(c, rows', server, egg, if keep then copy else map[], i);
    ValueCarried(c, rows, server, egg, copy, keep, rows'[i].variable, rows'[i].value);
  }

  lemma ValueCarried(c: Catalogue, rows: map<Id, Row>, server: Id, egg: Id, copy: map<Name, string>, keep: bool,
      v: Id, value: string)
    requires ValidCatalogue(c) && ValidRows(c, rows) && OldValues(c, rows, server, copy) && v in VariablesOf(c, egg)
    requires value == if keep && c.variables[v].name in copy then copy[c.variables[v].name] else c.variables[v].default
    ensures var n := c.variables[v].name;
      if keep && exists j :: NamedRow(c, rows, server, j, n)
      then exists j :: NamedRow(c, rows, server, j, n) && rows[j].value == value
      else value == c.variables[v].default
  {
    var n := c.variables[v].name;
    if n in copy {
      var j :| j in RowsOf(rows, server) && c.variables[rows[j].variable].name == n && rows[j].value == copy[n];
      assert NamedRow(c, rows, server, j, n);
    }
    if j :| NamedRow(c, rows, server, j, n) {
      assert j in RowsOf(rows, server);
    }
  }

  // ---------------------------------------------------------------------
  // What survives a change and a change back
  // ---------------------------------------------------------------------

  /**
    From egg A to B and back to A: a value survives exactly when B knows its
    name too, or when it was A's default anyway.
  */
  lemma RoundTripKeepsIff(c: Catalogue, values: map<Name, string>, a: Id, b: Id, n: Name)
    requires n in values && n in NamesOf(c, a)
    ensures n in Carried(c, Carried(c, values, b), a)
    ensures Carried(c, Carried(c, values, b), a)[n] == values[n]
      <==> n in NamesOf(c, b) || values[n] == DefaultOf(c, a, n)
  {
  }

  /**
    A change there and back, on the tables: consistent rows before it, the rows
    of the two changes after it, and for each name when its value is back.
  */
  lemma RoundTripOnRows(c: Catalogue, rows0: map<Id, Row>, rows1: map<Id, Row>, rows2: map<Id, Row>,
      server: Id, a: Id, b: Id, values: map<Name, string>, old0: map<Name, string>, old1: map<Name, string>)
    requires ValidRows(c, rows0) && ValidRows(c, rows1) && ValidRows(c, rows2)
    requires Stores(c, rows0, server, values) && OldValues(c, rows0, server, old0)
    requires Stores(c, rows1, server, Carried(c, old0, b)) && OldValues(c, rows1, server, old1)
    requires Stores(c, rows2, server, Carried(c, old1, a))
    ensures forall n | n in values && n in NamesOf(c, a) ::
      (HasValue(c, rows2, server, n, values[n]) <==> n in NamesOf(c, b) || values[n] == DefaultOf(c, a, n))
  {
    StoredAreOld(c, rows0, server, values, old0);
    StoredAreOld(c, rows1, server, Carried(c, values, b), old1);
    forall n | n in values && n in NamesOf(c, a)
      ensures HasValue(c, rows2, server, n, values[n]) <==> n in NamesOf(c, b) || values[n] == DefaultOf(c, a, n)
    {
      RoundTripKeepsIff(c, values, a, b, n);
      var i :| i in RowsOf(rows2, server) && c.variables[rows2[i].variable].name == n;
    }
  }

  /** A row of the server gives the name this value. */
  ghost predicate HasValue(c: Catalogue, rows: map<Id, Row>, server: Id, n: Name, value: string)
    requires ValidRows(c, rows)
  {
    exists i | i in RowsOf(rows, server) :: c.variables[rows[i].variable].name == n && rows[i].value == value
  }

  // ---------------------------------------------------------------------
  // The environment
  // ---------------------------------------------------------------------

  const BUILT_IN: set<Name> := {"STARTUP", "P_SERVER_UUID"}

  /** The value that the rows or the default give to a variable of the server's egg. */
  predicate IsValueOf(c: Catalogue, rows: map<Id, Row>, server: Id, v: Id, value: string)
    requires v in c.variables
  {
    || (exists i | i in RowsOf(rows, server) :: rows[i].variable == v && rows[i].value == value)
    || ((forall i | i in RowsOf(rows, server) :: rows[i].variable != v) && value == c.variables[v].default)
  }

  class EnvironmentService {
    const store: VariableStore
    var additional: map<Name, string>

    constructor (store: VariableStore)
      ensures this.store == store && additional == map[]
    {
      this.store, additional := store, map[];
    }

    /** Keys added at run time; the value stands for what the closure returns. */
    method SetEnvironmentKey(key: Name, value: string)
      modifies this
      ensures additional == old(additional)[key := value]
    {
      additional := additional[key := value];
    }

    /** Later sources override earlier ones: variables, built-in keys, added keys. */
    method Handle(server: Id) returns (environment: map<Name, string>)
      requires store.Valid() && server in store.servers
      ensures var s := store.servers[server];
        && environment.Keys == NamesOf(store.catalogue, s.egg) + BUILT_IN + additional.Keys
        && (forall n | n in additional :: environment[n] == additional[n])
        && ("STARTUP" !in additional ==> environment["STARTUP"] == s.startup)
        && ("P_SERVER_UUID" !in additional ==> environment["P_SERVER_UUID"] == s.uuid)
        && (forall v | v in VariablesOf(store.catalogue, s.egg) && store.catalogue.variables[v].name !in additional ::
          IsValueOf(store.catalogue, store.rows, server, v, environment[store.catalogue.variables[v].name]))
    {
      var s := store.servers[server];
      ghost var c := store.catalogue;
      var variables := VariableEnvironment(server);
      ghost var before := variables;
      variables := variables["STARTUP" := s.startup];
      variables := variables["P_SERVER_UUID" := s.uuid];
      assert forall n | n in before && n !in BUILT_IN :: variables[n] == before[n];
      environment := WithAdditional(variables);
      forall v | v in VariablesOf(c, s.egg) && c.variables[v].name !in additional
        ensures IsValueOf(c, store.rows, server, v, environment[c.variables[v].name])
      {
        assert c.variables[v].name !in BUILT_IN;
        assert environment[c.variables[v].name] == before[c.variables[v].name];
      }
    }

    /** The loop over the added keys. */
    method WithAdditional(variables: map<Name, string>) returns (environment: map<Name, string>)
      ensures environment == variables + additional
    {
      environment := variables;
      var todo := additional.Keys;
      while todo != {}
        invariant todo <= additional.Keys
        invariant environment.Keys == variables.Keys + (additional.Keys - todo)
        invariant forall n | n in environment ::
          environment[n] == if n in additional && n !in todo then additional[n] else variables[n]
        decreases |todo|
      {
        var n :| n in todo;
        environment := environment[n := additional[n]];
        todo := todo - {n};
      }
    }

    /** The joined value of a variable, or its default. */
    method ServerValue(server: Id, v: Id) returns (value: string)
      requires store.Valid() && v in store.catalogue.variables
      ensures IsValueOf(store.catalogue, store.rows, server, v, value)
    {
      var joined := set i | i in RowsOf(store.rows, server) && store.rows[i].variable == v;
      if joined == {} {
        assert forall i | i in RowsOf(store.rows, server) :: i !in joined;
        return store.catalogue.variables[v].default;
      }
      var i :| i in joined;
      return store.rows[i].value;
    }

    method VariableEnvironment(server: Id) returns (variables: map<Name, string>)
      requires store.Valid() && server in store.servers
      ensures var s := store.servers[server];
        && variables.Keys == NamesOf(store.catalogue, s.egg)
        && (forall v | v in VariablesOf(store.catalogue, s.egg) ::
          IsValueOf(store.catalogue, store.rows, server, v, variables[store.catalogue.variables[v].name]))
    {
      var c := store.catalogue;
      var all := VariablesOf(c, store.servers[server].egg);
      ghost var done: set<Id> := {};
      var todo := all;
      variables := map[];
      while todo != {}
        invariant done + todo == all && done !! todo
        invariant Reads(c, store.rows, server, done, variables)
        decreases todo
      {
        var v :| v in todo;
        var value := ServerValue(server, v);
        ReadsStep(c, store.rows, server, done, variables, v, value);
        variables := variables[c.variables[v].name := value];
        todo, done := todo - {v}, done + {v};
      }
      assert done == all;
      assert forall v | v in all :: ReadsOne(c, store.rows, server, v, variables);
      assert variables.Keys == NamesOf(c, store.servers[server].egg);
    }
  }

  predicate ReadsOne(c: Catalogue, rows: map<Id, Row>, server: Id, v: Id, variables: map<Name, string>)
    requires v in c.variables
  {
    c.variables[v].name in variables && IsValueOf(c, rows, server, v, variables[c.variables[v].name])
  }

  /** The names of a set of variables, each with its value. */
  ghost predicate Reads(c: Catalogue, rows: map<Id, Row>, server: Id, done: set<Id>, variables: map<Name, string>)
    requires done <= c.variables.Keys
  {
    && (forall v | v in done :: ReadsOne(c, rows, server, v, variables))
    && (forall n | n in variables :: exists v | v in done :: c.variables[v].name == n)
  }

  lemma ReadsStep(c: Catalogue, rows: map<Id, Row>, server: Id, done: set<Id>, variables: map<Name, string>, v: Id, value: string)
    requires ValidCatalogue(c) && done <= c.variables.Keys && Reads(c, rows, server, done, variables)
    requires v in c.variables && v !in done && IsValueOf(c, rows, server, v, value)
    requires forall w | w in done :: c.variables[w].egg == c.variables[v].egg
    ensures Reads(c, rows, server, done + {v}, variables[c.variables[v].name := value])
  {
    var variables' := variables[c.variables[v].name := value];
    forall w | w in done
      ensures ReadsOne(c, rows, server, w, variables')
    {
      assert ReadsOne(c, rows, server, w, variables);
      assert c.variables[w].name != c.variables[v].name;
    }
    forall n | n in variables'
      ensures exists w | w in done + {v} :: c.variables[w].name == n
    {
      if n in variables {
        var w :| w in done && c.variables[w].name == n;
        assert w in done + {v};
      } else {
        assert v in done + {v};
      }
    }
  }

  /** What `EnvironmentService.Handle` promises, as a relation. */
  ghost predicate IsEnvironment(c: Catalogue, rows: map<Id, Row>, server: Id, egg: Id,
      additional: map<Name, string>, environment: map<Name, string>)
  {
    && NamesOf(c, egg) <= environment.Keys
    && (forall n | n in additional :: n in environment && environment[n] == additional[n])
    && (forall v | v in VariablesOf(c, egg) && c.variables[v].name !in additional ::
      c.variables[v].name in environment && IsValueOf(c, rows, server, v, environment[c.variables[v].name]))
  }

  /** The value of a name of the egg: what the server stores for it, or the default. */
  ghost function Effective(c: Catalogue, egg: Id, values: map<Name, string>, n: Name): string {
    if n in values then values[n] else DefaultOf(c, egg, n)
  }

  lemma EnvironmentValue(c: Catalogue, rows: map<Id, Row>, server: Id, egg: Id, values: map<Name, string>, v: Id, value: string)
    requires ValidCatalogue(c) && ValidRows(c, rows)
    requires Stores(c, rows, server, values) && RowsBelong(c, rows, server, egg)
    requires v in VariablesOf(c, egg) && IsValueOf(c, rows, server, v, value)
    ensures value == Effective(c, egg, values, c.variables[v].name)
  {
    NameDetermines(c, egg, v);
    var n := c.variables[v].name;
    if n in values {
      var i :| i in RowsOf(rows, server) && c.variables[rows[i].variable].name == n;
      assert rows[i].variable == v;
    }
  }

  /**
    The environment agrees with the rows on every name of the egg exactly when
    no key added at run time contradicts one: the built-in keys never do,
    because their names are reserved.
  */
  lemma EnvironmentAgreesIff(c: Catalogue, rows: map<Id, Row>, server: Id, egg: Id, values: map<Name, string>,
      additional: map<Name, string>, environment: map<Name, string>)
    requires ValidCatalogue(c) && ValidRows(c, rows)
    requires Stores(c, rows, server, values) && RowsBelong(c, rows, server, egg)
    requires IsEnvironment(c, rows, server, egg, additional, environment)
    ensures BUILT_IN !! NamesOf(c, egg)
    ensures (forall n | n in NamesOf(c, egg) :: environment[n] == Effective(c, egg, values, n))
      <==> (forall n | n in NamesOf(c, egg) && n in additional :: additional[n] == Effective(c, egg, values, n))
  {
    forall n | n in NamesOf(c, egg) && n !in additional
      ensures environment[n] == Effective(c, egg, values, n)
    {
      var v :| v in VariablesOf(c, egg) && c.variables[v].name == n;
      EnvironmentValue(c, rows, server, egg, values, v, environment[n]);
    }
  }

  /** A stored value shared by both eggs is the same in the environment before and after the change. */
  lemma SharedNamesKeepTheirEnvironment(c: Catalogue, rows: map<Id, Row>, rows': map<Id, Row>, server: Id,
      a: Id, b: Id, values: map<Name, string>, env: map<Name, string>, env': map<Name, string>, n: Name)
    requires ValidCatalogue(c) && ValidRows(c, rows) && ValidRows(c, rows')
    requires Stores(c, rows, server, values) && RowsBelong(c, rows, server, a)
    requires Stores(c, rows', server, Carried(c, values, b)) && RowsBelong(c, rows', server, b)
    requires IsEnvironment(c, rows, server, a, map[], env) && IsEnvironment(c, rows', server, b, map[], env')
    requires n in values && n in NamesOf(c, a) && n in NamesOf(c, b)
    ensures env[n] == env'[n] == values[n]
  {
    EnvironmentAgreesIff(c, rows, server, a, values, map[], env);
    EnvironmentAgreesIff(c, rows', server, b, Carried(c, values, b), map[], env');
  }
}
