/**
  One more allocation for a server: an unassigned one on the address of its
  default allocation, or a new one on a random free port of a configured range
  (app/Services/Allocations/FindAssignableAllocationService.php).
*/
module AutoAssign {
  import opened Wrappers
  import opened Database
  import opened PortStrings
  import Assignment

  datatype Config = Config(enabled: bool, rangeStart: Option<int>, rangeEnd: Option<int>)

  datatype Error = NotEnabled | NoSpace | NotCreated(reason: Assignment.Error)

  /** The default allocation, which says at which address to look. */
  predicate HasHome(t: Tables, s: Id) {
    s in t.servers && t.servers[s].allocation in t.allocations
  }

  predicate AtHome(t: Tables, s: Id, row: Allocation)
    requires HasHome(t, s)
  {
    row.node == t.servers[s].node && row.ip == t.allocations[t.servers[s].allocation].ip
  }

  function Spare(t: Tables, s: Id): set<Id>
    requires HasHome(t, s)
  {
    set a | a in t.allocations && AtHome(t, s, t.allocations[a]) && t.allocations[a].owner == None
  }

  predicate Used(t: Tables, s: Id, port: int)
    requires HasHome(t, s)
  {
    exists a | a in t.allocations :: AtHome(t, s, t.allocations[a]) && t.allocations[a].port == port
  }

  /** Both bounds are there, and neither is falsy. */
  predicate HasRange(c: Config) {
    c.rangeStart.GetOr(0) != 0 && c.rangeEnd.GetOr(0) != 0
  }

  /** `range` also counts down, but `whereBetween` then finds no used port. */
  function Available(t: Tables, s: Id, first: int, last: int): set<int>
    requires HasHome(t, s)
  {
    set p | p in Span(first, last) && !(first <= p <= last && Used(t, s, p))
  }

  function AvailableIn(t: Tables, s: Id, c: Config): set<int>
    requires HasHome(t, s)
  {
    if HasRange(c) then Available(t, s, c.rangeStart.value, c.rangeEnd.value) else {}
  }

  /** The row for a port of the range. */
  function NewRow(t: Tables, s: Id, port: int, owner: Option<Id>): Allocation
    requires HasHome(t, s)
  {
    Allocation(t.servers[s].node, t.allocations[t.servers[s].allocation].ip, port, None, owner, None)
  }

  function WithRow(t: Tables, a: Id, row: Allocation): Tables {
    t.(allocations := t.allocations[a := row])
  }

  /** What a success with allocation `a` did. */
  ghost predicate Given(t: Tables, t': Tables, s: Id, a: Id, c: Config)
    requires HasHome(t, s)
  {
    if Spare(t, s) != {} then
      a in Spare(t, s) && t' == t.(allocations := SetOwner(t.allocations, {a}, Some(s), false))
    else
      a !in t.allocations && exists p | p in AvailableIn(t, s, c) :: CreatedAt(t, t', s, a, p)
  }

  ghost predicate CreatedAt(t: Tables, t': Tables, s: Id, a: Id, port: int)
    requires HasHome(t, s)
  {
    && Assignment.InRange(port) && !Used(t, s, port)
    && t' == WithRow(t, a, NewRow(t, s, port, Some(s)))
  }

  lemma {:induction false} PortBlock(port: int)
    ensures Assignment.Block(Text(port)).Success? <==> Assignment.InRange(port)
    ensures !Assignment.InRange(port) ==> Assignment.Block(Text(port)).error == Refusal(port)
    ensures Assignment.InRange(port) ==> Assignment.Block(Text(port)).value == [port]
  {
    TextIsNoRange(port);
    if port >= 0 {
      DecimalReadsBack(port);
    }
  }

  lemma OnePortParses(port: int)
    ensures Assignment.AllParse([Text(port)]) <==> Assignment.InRange(port)
    ensures Assignment.InRange(port) ==> Assignment.Ports([Text(port)]) == [port]
  {
    var entries := [Text(port)];
    PortBlock(port);
    assert entries[0] == Text(port) && entries[..0] == [];
  }

  lemma OneRowOnly(c: Assignment.Common, ip: Ip, port: int)
    ensures Assignment.Rows(c, [ip], [port]) == [Assignment.RowFor(c, ip, port)]
  {
    assert [ip][..0] == [];
    assert Assignment.Rows(c, [], [port]) == [];
  }

  lemma OneRowInserted(m: map<Id, Allocation>, last: Id, row: Allocation)
    ensures Assignment.Inserted(m, last, [row]) == m[last + 1 := row]
    ensures Assignment.Acceptable(m, [row]) <==> Assignment.Fits(m, row)
  {
    assert [row][..0] == [] && [row][0] == row;
  }

  /** A call for one address and one port creates that row, if the table has room for it. */
  lemma OneRow(m: map<Id, Allocation>, last: Id, c: Assignment.Common, ip: Ip, port: int)
    ensures Assignment.Accepted(m, c, [ip], [Text(port)]) <==> Assignment.Fits(m, Assignment.RowFor(c, ip, port))
    ensures Assignment.Accepted(m, c, [ip], [Text(port)]) ==>
      Assignment.Rows(c, [ip], Assignment.Ports([Text(port)])) == [Assignment.RowFor(c, ip, port)]
    ensures Assignment.Inserted(m, last, [Assignment.RowFor(c, ip, port)])
      == m[last + 1 := Assignment.RowFor(c, ip, port)]
  {
    OnePortParses(port);
    OneRowOnly(c, ip, port);
    OneRowInserted(m, last, Assignment.RowFor(c, ip, port));
  }

  lemma FitsIff(t: Tables, s: Id, port: int, owner: Option<Id>)
    requires HasHome(t, s)
    ensures Assignment.Fits(t.allocations, NewRow(t, s, port, owner))
      <==> Assignment.InRange(port) && !Used(t, s, port)
  {
    var row := NewRow(t, s, port, owner);
    assert forall a | a in t.allocations ::
      (SameKey(row, t.allocations[a]) <==> AtHome(t, s, t.allocations[a]) && t.allocations[a].port == port);
  }

  /** Why a port of the range is refused: numbers below zero are not even digits. */
  function Refusal(port: int): Assignment.Error {
    if port < 0 then Assignment.InvalidPortMapping
    else if !Assignment.InRange(port) then Assignment.PortOutOfRange
    else Assignment.RowRejected
  }

  lemma RefusalIsReason(m: map<Id, Allocation>, c: Assignment.Common, ip: Ip, port: int)
    ensures Assignment.ErrorOf(m, c, ip, [Text(port)]) == Refusal(port)
  {
    var entries := [Text(port)];
    PortBlock(port);
    assert entries[..0] == [] && Assignment.Ports([]) == [];
    assert Assignment.Acceptable(m, Assignment.RowsAt(c, ip, []));
    if Assignment.InRange(port) {
      Assignment.ParseAt(entries, Assignment.FirstBad(entries));
      assert Assignment.FirstBad(entries) == 1;
    } else {
      Assignment.FirstBadIs(entries, 0);
    }
  }

  lemma HomeExists(t: Tables, s: Id)
    requires Inv(t) && s in t.servers
    ensures HasHome(t, s)
  {
    assert t.servers[s].allocation in Owned(t, s);
  }

  /** The table before the new row gets its owner. */
  ghost predicate CreatedFree(t: Tables, t': Tables, s: Id, a: Id, port: int)
    requires HasHome(t, s)
  {
    && Assignment.InRange(port) && !Used(t, s, port) && a !in t.allocations
    && t' == WithRow(t, a, NewRow(t, s, port, None))
  }

  function HomeCommon(t: Tables, s: Id): Assignment.Common
    requires HasHome(t, s)
  {
    Assignment.Common(t.servers[s].node, None, None)
  }

  function HomeIp(t: Tables, s: Id): Ip
    requires HasHome(t, s)
  {
    t.allocations[t.servers[s].allocation].ip
  }

  /** What bulk assignment is asked for: one port at the server's address. */
  ghost predicate OnePort(t: Tables, s: Id, port: int, address: Assignment.Address, entries: seq<string>)
    requires HasHome(t, s)
  {
    address == Assignment.Host(Some(HomeIp(t, s))) && entries == [Text(port)]
  }

  /** The call depends on the port alone: whether it is accepted, what it creates, why it is refused. */
  ghost predicate Decided(t: Tables, last: Id, s: Id, port: int, address: Assignment.Address, entries: seq<string>)
    requires HasHome(t, s)
  {
    Assignment.Addresses(address).Success? &&
    var ips := Assignment.Addresses(address).value;
    if Assignment.InRange(port) && !Used(t, s, port) then
      && Assignment.Accepted(t.allocations, HomeCommon(t, s), ips, entries)
      && CreatedFree(t, Assignment.Assigned(t, last, HomeCommon(t, s), ips, entries), s, last + 1, port)
    else
      && !Assignment.Accepted(t.allocations, HomeCommon(t, s), ips, entries)
      && Assignment.Reason(t.allocations, HomeCommon(t, s), address, entries) == Refusal(port)
  }

  /** What bulk assignment does with the one port that was picked. */
  lemma CreatedByAssignment(t: Tables, last: Id, s: Id, port: int, address: Assignment.Address, entries: seq<string>)
    requires HasHome(t, s) && (forall a | a in t.allocations :: a <= last) && OnePort(t, s, port, address, entries)
    ensures Decided(t, last, s, port, address, entries)
  {
    OneRow(t.allocations, last, HomeCommon(t, s), HomeIp(t, s), port);
    FitsIff(t, s, port, None);
    if !Assignment.Accepted(t.allocations, HomeCommon(t, s), [HomeIp(t, s)], [Text(port)]) {
      RefusalIsReason(t.allocations, HomeCommon(t, s), HomeIp(t, s), port);
    }
  }

  /** The query by key finds the new row and no other one. */
  method FindRow(db: Panel, ghost t: Tables, s: Id, ghost a: Id, port: int) returns (found: Id)
    requires HasHome(t, s) && CreatedFree(t, db.View(), s, a, port) && UniqueKeys(db.allocations)
    requires HasHome(db.View(), s) && HomeIp(db.View(), s) == HomeIp(t, s)
    ensures found == a
  {
    var node, ip := db.servers[s].node, db.allocations[db.servers[s].allocation].ip;
    assert db.allocations[a].node == node && db.allocations[a].ip == ip && db.allocations[a].port == port;
    found :| found in db.allocations
      && db.allocations[found].node == node && db.allocations[found].ip == ip && db.allocations[found].port == port;
    assert SameKey(db.allocations[found], db.allocations[a]);
  }

  /** The answer for the port, and the tables after it. */
  ghost predicate PortAssigned(t: Tables, last: Id, s: Id, port: int, r: Result<seq<Id>, Assignment.Error>, t': Tables)
    requires HasHome(t, s)
  {
    if Assignment.InRange(port) && !Used(t, s, port) then r.Success? && CreatedFree(t, t', s, last + 1, port)
    else r == Failure(Refusal(port)) && t' == t
  }

  /** Bulk assignment of the one port. */
  method AssignPort(db: Panel, s: Id, port: int) returns (r: Result<seq<Id>, Assignment.Error>)
    requires db.Valid() && s in db.servers && HasHome(db.View(), s)
    modifies db
    ensures db.Valid() && db.lastServer == old(db.lastServer)
    ensures PortAssigned(old(db.View()), old(db.lastAllocation), s, port, r, db.View())
  {
    var node, ip := db.servers[s].node, db.allocations[db.servers[s].allocation].ip;
    var address, ports := Assignment.Host(Some(ip)), [Text(port)];
    assert OnePort(db.View(), s, port, address, ports);
    CreatedByAssignment(db.View(), db.lastAllocation, s, port, address, ports);
    r := AssignAt(db, s, port, address, ports, node);
  }

  /** The call itself, once it is known what it does. */
  method AssignAt(db: Panel, s: Id, ghost port: int, address: Assignment.Address, ports: seq<string>, node: Id)
    returns (r: Result<seq<Id>, Assignment.Error>)
    requires db.Valid() && HasHome(db.View(), s) && node == db.servers[s].node
    requires Decided(db.View(), db.lastAllocation, s, port, address, ports)
    modifies db
    ensures db.Valid() && db.lastServer == old(db.lastServer)
    ensures PortAssigned(old(db.View()), old(db.lastAllocation), s, port, r, db.View())
  {
    r := Assignment.Handle(db, address, ports, Assignment.Common(node, None, None));
  }

  /** The end of `createNewAllocation`: the assignment, and the row it made. */
  method CreateOn(db: Panel, s: Id, port: int) returns (r: Result<Id, Error>)
    requires db.Valid() && s in db.servers && HasHome(db.View(), s)
    modifies db
    ensures db.Valid() && db.lastServer == old(db.lastServer)
    ensures r.Success? <==> Assignment.InRange(port) && !Used(old(db.View()), s, port)
    ensures r.Success? ==> CreatedFree(old(db.View()), db.View(), s, r.value, port)
    ensures r.Failure? ==> db.View() == old(db.View()) && r.error == NotCreated(Refusal(port))
  {
    ghost var t, last := db.View(), db.lastAllocation;
    var created := AssignPort(db, s, port);
    if created.Failure? {
      return Failure(NotCreated(created.error));
    }
    var a := FindRow(db, t, s, last + 1, port);
    return Success(a);
  }

  /** `createNewAllocation`: the row still has no owner. */
  method CreateNewAllocation(db: Panel, s: Id, c: Config) returns (r: Result<Id, Error>, port: int)
    requires db.Valid() && s in db.servers && HasHome(db.View(), s)
    modifies db
    ensures db.Valid() && db.lastServer == old(db.lastServer)
    ensures r == Failure(NoSpace) <==> AvailableIn(old(db.View()), s, c) == {}
    ensures r != Failure(NoSpace) ==> port in AvailableIn(old(db.View()), s, c)
    ensures r.Success? ==> CreatedFree(old(db.View()), db.View(), s, r.value, port)
    ensures r.Failure? ==> db.View() == old(db.View()) && r.error != NotEnabled
    ensures r.Failure? && r.error != NoSpace ==>
      !(Assignment.InRange(port) && !Used(old(db.View()), s, port)) && r.error == NotCreated(Refusal(port))
  {
    if !HasRange(c) {
      return Failure(NoSpace), 0;
    }
    var available := FreePorts(db, s, c.rangeStart.value, c.rangeEnd.value);
    if available == {} {
      return Failure(NoSpace), 0;
    }
    port :| port in available;
    r := CreateOn(db, s, port);
  }

  /** The range without the ports that the query finds. */
  method FreePorts(db: Panel, s: Id, first: int, last: int) returns (available: set<int>)
    requires HasHome(db.View(), s)
    ensures available == Available(db.View(), s, first, last)
  {
    var ports := set a | a in db.allocations && AtHome(db.View(), s, db.allocations[a])
      && first <= db.allocations[a].port <= last :: db.allocations[a].port;
    available := set p | p in Span(first, last) && p !in ports;
  }

  /** `update(['server_id' => ...])` on an unassigned row. */
  method GiveRow(db: Panel, s: Id, a: Id)
    requires db.Valid() && s in db.servers && Unassigned(db.View(), a)
    modifies db`allocations
    ensures db.Valid()
    ensures db.View() == old(db.View()).(allocations := SetOwner(old(db.allocations), {a}, Some(s), false))
  {
    AssignUnassignedKeepsInv(db.View(), {a}, s, false);
    db.allocations := SetOwner(db.allocations, {a}, Some(s), false);
  }

  lemma CreatedThenGiven(t: Tables, t': Tables, s: Id, a: Id, port: int)
    requires HasHome(t, s) && a !in t.allocations && Assignment.InRange(port) && !Used(t, s, port)
    requires var free := WithRow(t, a, NewRow(t, s, port, None));
      t' == free.(allocations := SetOwner(free.allocations, {a}, Some(s), false))
    ensures CreatedAt(t, t', s, a, port)
  {
    assert t'.allocations == t.allocations[a := NewRow(t, s, port, Some(s))];
  }

  method Handle(db: Panel, s: Id, c: Config) returns (r: Result<Id, Error>)
    requires db.Valid() && s in db.servers
    modifies db
    ensures db.Valid() && HasHome(old(db.View()), s)
    ensures r.Success? ==> Given(old(db.View()), db.View(), s, r.value, c)
    ensures r.Failure? ==> db.View() == old(db.View())
    ensures r == Failure(NotEnabled) <==> !c.enabled
    ensures c.enabled && Spare(old(db.View()), s) != {} ==> r.Success?
    ensures c.enabled && Spare(old(db.View()), s) == {} ==>
      (r == Failure(NoSpace) <==> AvailableIn(old(db.View()), s, c) == {})
    ensures r.Failure? && r.error.NotCreated? ==>
      exists p | p in AvailableIn(old(db.View()), s, c) ::
        !(Assignment.InRange(p) && !Used(old(db.View()), s, p)) && r.error.reason == Refusal(p)
  {
    HomeExists(db.View(), s);
    ghost var t := db.View();
    if !c.enabled {
      return Failure(NotEnabled);
    }
    var spare := set a | a in db.allocations && AtHome(db.View(), s, db.allocations[a])
      && db.allocations[a].owner == None;
    var a: Id;
    var port := 0;
    assert spare == Spare(t, s);
    if spare != {} {
      a :| a in spare;
    } else {
      var created;
      created, port := CreateNewAllocation(db, s, c);
      if created.Failure? {
        return created;
      }
      a := created.value;
    }
    GiveRow(db, s, a);
    if spare == {} {
      CreatedThenGiven(t, db.View(), s, a, port);
    }
    return Success(a);
  }

  // ---------------------------------------------------------------------
  // What a call does for the server
  // ---------------------------------------------------------------------

  /** `t'` has one more row owned by `s`, and no other server's rows changed. */
  ghost predicate GainsOne(t: Tables, t': Tables, s: Id, a: Id) {
    && a !in Owned(t, s) && Owned(t', s) == Owned(t, s) + {a}
    && (forall r | r != s :: Owned(t', r) == Owned(t, r))
    && t' == t.(allocations := t'.allocations)
  }

  /** The server gets exactly one more allocation, at its own node and address; nobody loses any. */
  lemma OneMore(t: Tables, t': Tables, s: Id, a: Id, c: Config)
    requires Inv(t) && HasHome(t, s) && Given(t, t', s, a, c)
    ensures Inv(t') && GainsOne(t, t', s, a)
    ensures a in t'.allocations && t'.allocations[a].node == t.servers[s].node
      && t'.allocations[a].ip == t.allocations[t.servers[s].allocation].ip
  {
    if Spare(t, s) != {} {
      SpareGiven(t, t', s, a);
    } else {
      var p :| p in AvailableIn(t, s, c) && CreatedAt(t, t', s, a, p);
      CreatedGiven(t, t', s, a, p);
    }
  }

  /** A row on the server's node, at the address of its default allocation. */
  predicate IsNeighbour(t: Tables, s: Id, row: Allocation)
    requires HasHome(t, s)
  {
    row.node == t.servers[s].node && row.ip == t.allocations[t.servers[s].allocation].ip
  }

  /**
    It is an unassigned row at the address if there is one, unchanged but for
    its owner, and otherwise a new one on a port of the range without a row there.
  */
  lemma WhichRowIsGiven(t: Tables, t': Tables, s: Id, a: Id, c: Config)
    requires HasHome(t, s) && Given(t, t', s, a, c)
    ensures a in t.allocations <==>
      exists b | b in t.allocations :: IsNeighbour(t, s, t.allocations[b]) && t.allocations[b].owner == None
    ensures a in t'.allocations
    ensures a in t.allocations ==>
      t.allocations[a].owner == None && t'.allocations[a] == t.allocations[a].(owner := Some(s))
    ensures a !in t.allocations ==>
      c.rangeStart.Some? && c.rangeEnd.Some? && c.rangeStart.value != 0 && c.rangeEnd.value != 0
      && IsNewRow(t, s, t'.allocations[a], c.rangeStart.value, c.rangeEnd.value)
  {
    if b :| b in t.allocations && IsNeighbour(t, s, t.allocations[b]) && t.allocations[b].owner == None {
      assert b in Spare(t, s);
    }
    if Spare(t, s) != {} {
      assert a in Spare(t, s);
    } else {
      var p :| p in AvailableIn(t, s, c) && CreatedAt(t, t', s, a, p);
      assert forall b | b in t.allocations && t.allocations[b].port == p :: !AtHome(t, s, t.allocations[b]);
    }
  }

  ghost predicate IsNewRow(t: Tables, s: Id, row: Allocation, first: int, last: int)
    requires HasHome(t, s)
  {
    && row.owner == Some(s) && row.notes == None && row.aliasName == None
    && 1024 <= row.port <= 65535 && (first <= row.port <= last || last <= row.port <= first)
    && forall b | b in t.allocations && IsNeighbour(t, s, t.allocations[b]) :: t.allocations[b].port != row.port
  }

  lemma SpareGiven(t: Tables, t': Tables, s: Id, a: Id)
    requires Inv(t) && HasHome(t, s) && a in Spare(t, s)
    requires t' == t.(allocations := SetOwner(t.allocations, {a}, Some(s), false))
    ensures Inv(t') && GainsOne(t, t', s, a)
    ensures a in t'.allocations && AtHome(t, s, t'.allocations[a])
  {
    assert Unassigned(t, a);
    AssignUnassignedKeepsInv(t, {a}, s, false);
    OneRowChanged(t, t', s, a);
  }

  lemma CreatedGiven(t: Tables, t': Tables, s: Id, a: Id, port: int)
    requires Inv(t) && HasHome(t, s) && a !in t.allocations && CreatedAt(t, t', s, a, port)
    ensures Inv(t') && GainsOne(t, t', s, a)
    ensures a in t'.allocations && AtHome(t, s, t'.allocations[a])
  {
    CreatedKeepsInv(t, t', s, a, port);
    OneRowChanged(t, t', s, a);
  }

  lemma OneRowChanged(t: Tables, t': Tables, s: Id, a: Id)
    requires a !in t.allocations || Unassigned(t, a)
    requires t' == t.(allocations := t'.allocations) && t'.allocations.Keys == t.allocations.Keys + {a}
    requires t'.allocations[a].owner == Some(s)
    requires forall b | b in t.allocations && b != a :: t'.allocations[b] == t.allocations[b]
    ensures GainsOne(t, t', s, a)
  {
    assert forall b | b in t'.allocations && b != a :: b in t.allocations && t'.allocations[b] == t.allocations[b];
    assert Owned(t', s) == Owned(t, s) + {a};
    forall r | r != s
      ensures Owned(t', r) == Owned(t, r)
    {
    }
  }

  lemma CreatedKeepsInv(t: Tables, t': Tables, s: Id, a: Id, port: int)
    requires Inv(t) && HasHome(t, s) && a !in t.allocations && CreatedAt(t, t', s, a, port)
    ensures Inv(t')
  {
    var row := NewRow(t, s, port, Some(s));
    FitsIff(t, s, port, Some(s));
    forall x, y | x in t'.allocations && y in t'.allocations && x != y
      ensures !SameKey(t'.allocations[x], t'.allocations[y])
    {
      assert x in t.allocations ==> !SameKey(row, t.allocations[x]);
      assert y in t.allocations ==> !SameKey(row, t.allocations[y]);
      assert x in t.allocations && y in t.allocations ==> !SameKey(t.allocations[x], t.allocations[y]);
    }
    forall r | r in t.servers
      ensures t.servers[r].allocation in Owned(t', r)
    {
      assert t.servers[r].allocation in Owned(t, r);
    }
    OtherPartsKept(t, t'.allocations);
  }

  /** With an ordinary range, a call can only run out of ports: never be refused a row. */
  lemma OrdinaryRange(t: Tables, s: Id, c: Config)
    requires HasHome(t, s) && c.rangeStart.Some? && c.rangeEnd.Some?
    requires 1024 <= c.rangeStart.value <= c.rangeEnd.value <= 65535
    ensures forall p | p in AvailableIn(t, s, c) :: Assignment.InRange(p) && !Used(t, s, p)
    ensures AvailableIn(t, s, c) == {} <==> forall p | c.rangeStart.value <= p <= c.rangeEnd.value :: Used(t, s, p)
    ensures forall p :: Used(t, s, p) <==>
      exists b | b in t.allocations :: IsNeighbour(t, s, t.allocations[b]) && t.allocations[b].port == p
  {
    var first, last := c.rangeStart.value, c.rangeEnd.value;
    forall p | first <= p <= last
      ensures p in Span(first, last)
      ensures p in AvailableIn(t, s, c) <==> !Used(t, s, p)
    {
      assert Span(first, last)[p - first] == p;
    }
  }

  /**
    A picked port is never refused exactly when each port of the range can be
    created or, in an ascending range, is used: a descending one offers used
    ports again.
  */
  lemma NeverRefusedIff(t: Tables, s: Id, c: Config)
    requires HasHome(t, s) && HasRange(c)
    ensures (forall p | p in AvailableIn(t, s, c) :: Assignment.InRange(p) && !Used(t, s, p))
      <==> if c.rangeStart.value <= c.rangeEnd.value
           then forall p | c.rangeStart.value <= p <= c.rangeEnd.value :: Assignment.InRange(p) || Used(t, s, p)
           else forall p | c.rangeEnd.value <= p <= c.rangeStart.value :: Assignment.InRange(p) && !Used(t, s, p)
  {
    var first, last := c.rangeStart.value, c.rangeEnd.value;
    forall p: int
      ensures p in AvailableIn(t, s, c) <==>
        if first <= last then first <= p <= last && !Used(t, s, p) else last <= p <= first
    {
      if first <= p <= last {
        assert Span(first, last)[p - first] == p;
      } else if last <= p <= first {
        assert Span(first, last)[first - p] == p;
      }
    }
  }
}
