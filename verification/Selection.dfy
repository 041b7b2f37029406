/** The choice of a default allocation for a new server (app/Services/Deployment/AllocationSelectionService.php). */
module Selection {
  import opened Wrappers
  import opened Database
  import opened PortStrings

  datatype Error = TooManyPorts | NoViableAllocation

  // ---------------------------------------------------------------------
  // Ports and ranges that are kept
  // ---------------------------------------------------------------------

  datatype Kept = Single(port: nat) | Between(low: nat, high: nat)

  predicate Matches(k: Kept, port: int) {
    match k
    case Single(p) => port == p
    case Between(low, high) => low <= port <= high
  }

  predicate TooWide(entry: string) {
    ParseRange(entry).Some? &&
    var (a, b) := ParseRange(entry).value;
    b - a > PORT_RANGE_LIMIT || a - b > PORT_RANGE_LIMIT
  }

  predicate Readable(entry: string) {
    IsDigits(entry) || ParseRange(entry).Some?
  }

  /** The entry, as typed, asks for this port. */
  predicate Names(entry: string, port: int) {
    if IsDigits(entry) then port == ToInt(entry)
    else ParseRange(entry).Some? && ParseRange(entry).value.0 <= port <= ParseRange(entry).value.1
  }

  predicate AnyMatches(kept: seq<Kept>, port: int) {
    exists k | k in kept :: Matches(k, port)
  }

  /** No restriction, or some kept port or range. */
  predicate Wanted(kept: seq<Kept>, port: int) {
    kept == [] || AnyMatches(kept, port)
  }

  predicate AnyNames(entries: seq<string>, port: int) {
    exists e | e in entries :: Names(e, port)
  }

  predicate AnyReadable(entries: seq<string>) {
    exists e | e in entries :: Readable(e)
  }

  predicate AnyTooWide(entries: seq<string>) {
    exists e | e in entries :: TooWide(e)
  }

  /** What a list as typed asks for: if nothing in it can be read, every port. */
  predicate AskedFor(entries: seq<string>, port: int) {
    AnyReadable(entries) ==> AnyNames(entries, port)
  }

  /** `kept` was read from these entries. */
  ghost predicate ReadFrom(kept: seq<Kept>, entries: seq<string>) {
    && !AnyTooWide(entries)
    && (kept != [] <==> AnyReadable(entries))
    && (forall port :: AnyMatches(kept, port) <==> AnyNames(entries, port))
  }

  /** What is stored for one entry. */
  function KeptOf(entry: string): seq<Kept> {
    if IsDigits(entry) then [Single(ToInt(entry))]
    else if ParseRange(entry).Some? then [Between(ParseRange(entry).value.0, ParseRange(entry).value.1)]
    else []
  }

  lemma MatchesConcat(kept: seq<Kept>, more: seq<Kept>, port: int)
    ensures AnyMatches(kept + more, port) <==> AnyMatches(kept, port) || AnyMatches(more, port)
  {
    assert forall k :: k in kept + more <==> k in kept || k in more;
  }

  lemma KeptMeansNamed(entry: string, port: int)
    ensures AnyMatches(KeptOf(entry), port) <==> Names(entry, port)
  {
    if KeptOf(entry) != [] {
      assert KeptOf(entry)[0] in KeptOf(entry);
    }
  }

  lemma ReadOne(kept: seq<Kept>, entries: seq<string>, entry: string)
    requires ReadFrom(kept, entries) && !TooWide(entry)
    ensures ReadFrom(kept + KeptOf(entry), entries + [entry])
  {
    var entries' := entries + [entry];
    assert forall e :: e in entries' <==> e in entries || e == entry;
    assert AnyReadable(entries') <==> AnyReadable(entries) || Readable(entry);
    forall port
      ensures AnyMatches(kept + KeptOf(entry), port) <==> AnyNames(entries', port)
    {
      MatchesConcat(kept, KeptOf(entry), port);
      KeptMeansNamed(entry, port);
      assert AnyNames(entries', port) <==> AnyNames(entries, port) || Names(entry, port);
    }
  }

  /** A digit string is not a range, so an entry is stored once. */
  lemma DigitsAreNoRange(entry: string)
    requires IsDigits(entry)
    ensures ParseRange(entry).None?
  {
    assert !IsDigit('-');
  }

  // ---------------------------------------------------------------------
  // Who can be chosen
  // ---------------------------------------------------------------------

  /** Some server uses this address on one of the nodes. */
  predicate InUse(m: map<Id, Allocation>, nodes: seq<Id>, ip: Ip) {
    exists b | b in m :: m[b].owner.Some? && m[b].node in nodes && m[b].ip == ip
  }

  function Eligible(m: map<Id, Allocation>, nodes: seq<Id>, kept: seq<Kept>, dedicated: bool): set<Id> {
    set a | a in m && m[a].owner == None && m[a].node in nodes && Wanted(kept, m[a].port)
      && (dedicated ==> !InUse(m, nodes, m[a].ip))
  }

  /** The condition on the port, as the query has it. */
  predicate Meets(between: seq<(nat, nat)>, whereIn: seq<nat>, port: int) {
    (exists w | w in between :: w.0 <= port <= w.1) || port in whereIn
  }

  lemma MeetsMore(between: seq<(nat, nat)>, whereIn: seq<nat>, between': seq<(nat, nat)>, whereIn': seq<nat>,
      k: Kept, port: int)
    requires between' == (if k.Between? then between + [(k.low, k.high)] else between)
    requires whereIn' == (if k.Single? then whereIn + [k.port] else whereIn)
    ensures Meets(between', whereIn', port) <==> Meets(between, whereIn, port) || Matches(k, port)
  {
    assert forall w :: w in between' <==> w in between || (k.Between? && w == (k.low, k.high));
    assert forall p :: p in whereIn' <==> p in whereIn || (k.Single? && p == k.port);
  }

  /** The same, in terms of the ports as they were typed. */
  function EligibleFor(m: map<Id, Allocation>, nodes: seq<Id>, entries: seq<string>, dedicated: bool): set<Id> {
    set a | a in m && m[a].owner == None && m[a].node in nodes && AskedFor(entries, m[a].port)
      && (dedicated ==> !InUse(m, nodes, m[a].ip))
  }

  /** The ports that an entry names, as typed: one number, or all between two of four or five digits, the smaller first. */
  lemma TypedEntries(n: nat, low: nat, high: nat, end: string, port: int)
    requires end == "" || end == "\n"
    ensures var one, range := Decimal(n), Decimal(low) + "-" + Decimal(high) + end;
      && Readable(one) && !Readable("") && !TooWide(one) && (Names(one, port) <==> port == n)
      && (Readable(range) <==> 1000 <= low <= 99999 && 1000 <= high <= 99999)
      && (Names(range, port) <==> 1000 <= low <= port <= high <= 99999)
      && (TooWide(range) <==> Readable(range) && (high - low > 1000 || low - high > 1000))
  {
    TextIsNoRange(n);
    DecimalReadsBack(n);
    RangeReadsBack(low, high, end);
  }

  /**
    Who can be chosen, row by row: nobody's, on one of the nodes, on a port that
    some entry names, unless nothing in the list can be read, and for a dedicated
    one at an address where nobody has a row on these nodes.
  */
  lemma EligibleIff(m: map<Id, Allocation>, nodes: seq<Id>, entries: seq<string>, dedicated: bool, a: Id)
    ensures a in EligibleFor(m, nodes, entries, dedicated) <==>
      && a in m && m[a].owner == None && m[a].node in nodes
      && ((exists e | e in entries :: Readable(e)) ==> exists e | e in entries :: Names(e, m[a].port))
      && (dedicated ==> forall b | b in m && m[b].node in nodes && m[b].ip == m[a].ip :: m[b].owner == None)
  {
  }

  class AllocationSelectionService {
    var dedicated: bool
    var nodes: seq<Id>
    var ports: seq<Kept>

    constructor ()
      ensures !dedicated && nodes == [] && ports == []
    {
      dedicated, nodes, ports := false, [], [];
    }

    method SetDedicated(value: bool)
      modifies this`dedicated
      ensures dedicated == value
    {
      dedicated := value;
    }

    method SetNodes(list: seq<Id>)
      modifies this`nodes
      ensures nodes == list
    {
      nodes := list;
    }

    /** Stores what can be read; one range that is too wide refuses the whole list. */
    method SetPorts(entries: seq<string>) returns (error: Option<Error>)
      modifies this`ports
      ensures error == if AnyTooWide(entries) then Some(TooManyPorts) else None
      ensures error.Some? ==> ports == old(ports)
      ensures error.None? ==> forall port :: Wanted(ports, port) <==> AskedFor(entries, port)
    {
      var stored: seq<Kept> := [];
      for n := 0 to |entries|
        invariant ReadFrom(stored, entries[..n]) && ports == old(ports)
      {
        ghost var before := stored;
        var entry := entries[n];
        if IsDigits(entry) {
          stored := stored + [Single(ToInt(entry))];
          DigitsAreNoRange(entry);
        }
        if ParseRange(entry).Some? {
          var (a, b) := ParseRange(entry).value;
          if b - a > PORT_RANGE_LIMIT || a - b > PORT_RANGE_LIMIT {
            assert TooWide(entries[n]);
            return Some(TooManyPorts);
          }
          stored := stored + [Between(a, b)];
        }
        assert stored == before + KeptOf(entry);
        assert entries[..n] + [entry] == entries[..n + 1];
        ReadOne(before, entries[..n], entry);
      }
      assert entries[..|entries|] == entries;
      ports := stored;
      return None;
    }

    /** The query, restricted step by step, and then any of its rows. */
    method Handle(db: Panel) returns (r: Result<Id, Error>)
      ensures r.Failure? <==> Eligible(db.allocations, nodes, ports, dedicated) == {}
      ensures r.Success? ==> r.value in Eligible(db.allocations, nodes, ports, dedicated)
      ensures r.Failure? ==> r.error == NoViableAllocation
    {
      var m := db.allocations;
      var query := set a | a in m && m[a].owner == None && m[a].node in nodes;
      if ports != [] {
        var between, whereIn := Conditions(ports);
        query := set a | a in query && Meets(between, whereIn, m[a].port);
      }
      if dedicated {
        var discard := Discardable(m, nodes);
        if discard != {} {
          query := set a | a in query && m[a].ip !in discard;
        }
        assert nodes != [] ==> forall ip :: ip in discard <==> InUse(m, nodes, ip);
      }
      assert query == Eligible(m, nodes, ports, dedicated);
      if query == {} {
        return Failure(NoViableAllocation);
      }
      var a :| a in query;
      return Success(a);
    }

    /** The closure over the kept ports: ranges at once, single ports collected. */
    method Conditions(kept: seq<Kept>) returns (between: seq<(nat, nat)>, whereIn: seq<nat>)
      ensures forall port: int :: AnyMatches(kept, port) <==> Meets(between, whereIn, port)
    {
      between, whereIn := [], [];
      for n := 0 to |kept|
        invariant forall port: int :: AnyMatches(kept[..n], port) <==> Meets(between, whereIn, port)
      {
        ghost var between', whereIn' := between, whereIn;
        match kept[n] {
          case Between(low, high) => between := between + [(low, high)];
          case Single(p) => whereIn := whereIn + [p];
        }
        forall port: int
          ensures AnyMatches(kept[..n + 1], port) <==> Meets(between, whereIn, port)
        {
          assert kept[..n + 1] == kept[..n] + [kept[n]];
          MatchesConcat(kept[..n], [kept[n]], port);
          assert AnyMatches([kept[n]], port) <==> Matches(kept[n], port) by {
            assert [kept[n]][0] in [kept[n]];
          }
          MeetsMore(between', whereIn', between, whereIn, kept[n], port);
        }
      }
      assert kept[..|kept|] == kept;
    }

    /** `getDiscardableDedicatedAllocations`: without nodes, the addresses in use anywhere. */
    method Discardable(m: map<Id, Allocation>, on: seq<Id>) returns (ips: set<Ip>)
      ensures on != [] ==> forall ip :: ip in ips <==> InUse(m, on, ip)
      ensures on == [] ==> forall ip :: ip in ips <==> exists b | b in m :: m[b].owner.Some? && m[b].ip == ip
    {
      var query := set b | b in m && m[b].owner.Some?;
      if on != [] {
        query := set b | b in query && m[b].node in on;
      }
      ips := set b | b in query :: m[b].ip;
    }
  }

  /** An empty list of nodes selects nothing. */
  lemma NoNodesNoChoice(m: map<Id, Allocation>, kept: seq<Kept>, dedicated: bool)
    ensures Eligible(m, [], kept, dedicated) == {}
  {
  }

  // ---------------------------------------------------------------------
  // Dedicated addresses
  // ---------------------------------------------------------------------

  /** No address of a node is shared by two servers. */
  ghost predicate Exclusive(m: map<Id, Allocation>) {
    forall a, b | a in m && b in m && m[a].owner.Some? && m[b].owner.Some?
      && m[a].node == m[b].node && m[a].ip == m[b].ip :: m[a].owner == m[b].owner
  }

  datatype Step =
    | Place(server: Id, nodes: seq<Id>, kept: seq<Kept>, choice: Id)
    | Remove(leaving: Id)

  predicate Enabled(m: map<Id, Allocation>, e: Step) {
    e.Place? ==> e.choice in Eligible(m, e.nodes, e.kept, true)
  }

  function OwnedBy(m: map<Id, Allocation>, s: Id): set<Id> {
    set a | a in m && m[a].owner == Some(s)
  }

  function Next(m: map<Id, Allocation>, e: Step): map<Id, Allocation> {
    match e
    case Place(s, _, _, a) => SetOwner(m, {a}, Some(s), false)
    case Remove(s) => SetOwner(m, OwnedBy(m, s), None, false)
  }

  function Run(m: map<Id, Allocation>, es: seq<Step>): map<Id, Allocation> {
    if es == [] then m else Next(Run(m, es[..|es| - 1]), es[|es| - 1])
  }

  ghost predicate Runnable(m: map<Id, Allocation>, es: seq<Step>) {
    forall i | 0 <= i < |es| :: Enabled(Run(m, es[..i]), es[i])
  }

  /** Placing a server on a free allocation keeps addresses apart exactly when nobody else is there. */
  lemma PlacingKeepsApartIff(m: map<Id, Allocation>, s: Id, a: Id)
    requires Exclusive(m) && a in m && m[a].owner == None
    ensures Exclusive(SetOwner(m, {a}, Some(s), false))
      <==> forall b | b in m && m[b].node == m[a].node && m[b].ip == m[a].ip && m[b].owner.Some? :: m[b].owner == Some(s)
  {
    var m' := SetOwner(m, {a}, Some(s), false);
    if Exclusive(m') {
      forall b | b in m && m[b].node == m[a].node && m[b].ip == m[a].ip && m[b].owner.Some?
        ensures m[b].owner == Some(s)
      {
        assert m'[a].owner == Some(s) && m'[b].owner == m[b].owner;
      }
    }
  }

  lemma StepKeepsApart(m: map<Id, Allocation>, e: Step)
    requires Exclusive(m) && Enabled(m, e)
    ensures Exclusive(Next(m, e))
  {
    if e.Place? {
      forall b | b in m && m[b].node == m[e.choice].node && m[b].ip == m[e.choice].ip
        ensures m[b].owner.None?
      {
        assert !InUse(m, e.nodes, m[e.choice].ip);
      }
      PlacingKeepsApartIff(m, e.server, e.choice);
    }
  }

  /** A placement gives its choice to the server, a deletion frees what the server has; neither changes anything else. */
  lemma StepChangesOwnersOnly(m: map<Id, Allocation>, e: Step, a: Id)
    requires Enabled(m, e) && a in m
    ensures a in Next(m, e) && Next(m, e)[a] == match e
      case Place(s, _, _, choice) => if a == choice then m[a].(owner := Some(s)) else m[a]
      case Remove(s) => if m[a].owner == Some(s) then m[a].(owner := None) else m[a]
  {
  }

  /** Dedicated placements, each with its own nodes and ports, and deletions keep servers apart. */
  lemma {:induction false} DedicatedRunsKeepApart(m: map<Id, Allocation>, es: seq<Step>)
    requires Exclusive(m) && Runnable(m, es)
    ensures Exclusive(Run(m, es))
  {
    if es != [] {
      var init := es[..|es| - 1];
      assert forall i | 0 <= i < |init| :: init[..i] == es[..i] && init[i] == es[i];
      DedicatedRunsKeepApart(m, init);
      StepKeepsApart(Run(m, init), es[|es| - 1]);
    }
  }
}
