/**
  The creation of a server: its row, its allocations and its variables in one
  transaction, then a call to the daemon, and a forced deletion when the daemon
  cannot be reached (app/Services/Servers/ServerCreationService.php).
*/
module Creation {
  import opened Wrappers
  import opened Database
  import Selection
  import Deletion

  /** The parts of a request that decide about rows. Node and allocation may be left open. */
  datatype Request = Request(
    node: Option<Id>,
    allocation: Option<Id>,
    additional: seq<Id>,
    variables: seq<(Id, Option<string>)>)

  /** Where and how to look for an allocation; the nodes are the viable ones. */
  datatype Deployment = Deployment(nodes: seq<Id>, ports: seq<string>, dedicated: bool)

  datatype Error =
    | NotSelected(reason: Selection.Error)
    | NoAllocationGiven
    | AllocationNotFound
    | InvalidServer
    | DaemonUnreachable
    | DaemonRefused

  // ---------------------------------------------------------------------
  // The rows of a new server
  // ---------------------------------------------------------------------

  /** The server row, once its node and default allocation are settled. */
  datatype Placement = Placement(node: Id, allocation: Id)

  function Chosen(q: Request, p: Placement): set<Id> {
    {p.allocation} + set a | a in q.additional
  }

  function Stored(vs: map<(Id, Id), string>, s: Id, list: seq<(Id, Option<string>)>): map<(Id, Id), string> {
    if list == [] then vs
    else Stored(vs, s, list[..|list| - 1])[(s, list[|list| - 1].0) := list[|list| - 1].1.GetOr("")]
  }

  /** The assignment does not ask who has the allocations. */
  function Created(t: Tables, s: Id, q: Request, p: Placement): Tables {
    t.(servers := t.servers[s := Server(p.node, p.allocation, Some(Installing))],
      allocations := SetOwner(t.allocations, Chosen(q, p), Some(s), false),
      variables := Stored(t.variables, s, q.variables))
  }

  /** The rules on `allocation_id`: it exists, and no server has it as its default. */
  predicate IsFreeHome(t: Tables, a: Id) {
    a in t.allocations && !IsDefault(t, a)
  }

  /** No server is known under this identifier. */
  predicate Unused(t: Tables, s: Id) {
    && s !in t.servers && (forall a | a in t.allocations :: t.allocations[a].owner != Some(s))
    && (forall v | v in t.variables :: v.0 != s) && (forall x | x in t.transfers :: t.transfers[x].server != s)
    && (forall d | d in t.databases :: t.databases[d] != s)
  }

  lemma NewIsUnused(t: Tables, s: Id)
    requires Inv(t) && s !in t.servers
    ensures Unused(t, s)
  {
  }

  lemma {:induction false} StoredKeys(vs: map<(Id, Id), string>, s: Id, list: seq<(Id, Option<string>)>)
    ensures forall v | v in Stored(vs, s, list) :: v in vs || v.0 == s
    ensures forall v | v in vs && v.0 != s :: v in Stored(vs, s, list) && Stored(vs, s, list)[v] == vs[v]
    ensures forall i | 0 <= i < |list| :: (s, list[i].0) in Stored(vs, s, list)
  {
    if list != [] {
      StoredKeys(vs, s, list[..|list| - 1]);
    }
  }

  /** Each variable of the list is stored under the server, a missing value as the empty string; the last one counts. */
  lemma {:induction false} StoredValue(vs: map<(Id, Id), string>, s: Id, list: seq<(Id, Option<string>)>, i: nat)
    requires i < |list| && forall j | i < j < |list| :: list[j].0 != list[i].0
    ensures (s, list[i].0) in Stored(vs, s, list) && Stored(vs, s, list)[(s, list[i].0)] == list[i].1.GetOr("")
    decreases |list|
  {
    if i < |list| - 1 {
      StoredValue(vs, s, list[..|list| - 1], i);
    }
  }

  // ---------------------------------------------------------------------
  // The invariant
  // ---------------------------------------------------------------------

  /** A creation keeps the invariant exactly when it takes no server's default allocation. */
  lemma CreateKeepsInvIff(t: Tables, s: Id, q: Request, p: Placement)
    requires Inv(t) && s !in t.servers && IsFreeHome(t, p.allocation)
    ensures Inv(Created(t, s, q, p)) <==> forall r | r in t.servers :: t.servers[r].allocation !in Chosen(q, p)
  {
    var t' := Created(t, s, q, p);
    SetOwnerKeepsKeys(t.allocations, Chosen(q, p), Some(s), false);
    StoredKeys(t.variables, s, q.variables);
    assert UniqueKeys(t'.allocations);
    assert OneOpenTransfer(t') && References(t');
    OwnersAfterCreate(t, s, q, p);
    DefaultsAfterCreate(t, s, q, p);
  }

  lemma OwnersAfterCreate(t: Tables, s: Id, q: Request, p: Placement)
    requires OwnersExist(t)
    ensures OwnersExist(Created(t, s, q, p))
  {
    var m := Created(t, s, q, p).allocations;
    assert forall a | a in m :: m[a].owner == Some(s) || m[a].owner == t.allocations[a].owner;
  }

  lemma DefaultsAfterCreate(t: Tables, s: Id, q: Request, p: Placement)
    requires DefaultsOwned(t) && s !in t.servers && p.allocation in t.allocations
    ensures DefaultsOwned(Created(t, s, q, p))
      <==> forall r | r in t.servers :: t.servers[r].allocation !in Chosen(q, p)
  {
    var t' := Created(t, s, q, p);
    assert p.allocation in Chosen(q, p) && t'.allocations[p.allocation].owner == Some(s);
    if DefaultsOwned(t') {
      forall r | r in t.servers
        ensures t.servers[r].allocation !in Chosen(q, p)
      {
        assert t'.servers[r].allocation in Owned(t', r);
      }
    }
    if forall r | r in t.servers :: t.servers[r].allocation !in Chosen(q, p) {
      forall r | r in t'.servers
        ensures t'.servers[r].allocation in Owned(t', r)
      {
        if r != s {
          assert t.servers[r].allocation in Owned(t, r);
        }
      }
    }
  }

  /** The condition in terms of what the caller sees: unassigned allocations are always fine. */
  predicate AllUnassigned(t: Tables, ids: set<Id>) {
    forall a | a in t.allocations && a in ids :: t.allocations[a].owner == None
  }

  lemma UnassignedAreNoDefaults(t: Tables, ids: set<Id>)
    requires Inv(t) && AllUnassigned(t, ids)
    ensures forall r | r in t.servers :: t.servers[r].allocation !in ids
  {
    forall r | r in t.servers
      ensures t.servers[r].allocation !in ids
    {
      assert t.servers[r].allocation in Owned(t, r);
    }
  }

  /** An additional allocation is taken even from the server that has it as its default. */
  lemma CreationCanStealADefault(t: Tables, s: Id, q: Request, p: Placement, victim: Id)
    requires Inv(t) && s !in t.servers && IsFreeHome(t, p.allocation)
    requires victim in t.servers && t.servers[victim].allocation in q.additional
    ensures !Inv(Created(t, s, q, p))
    ensures t.servers[victim].allocation in Owned(Created(t, s, q, p), s)
  {
    CreateKeepsInvIff(t, s, q, p);
    assert t.servers[victim].allocation in Chosen(q, p);
    assert t.servers[victim].allocation in Owned(t, victim);
  }

  // ---------------------------------------------------------------------
  // Undoing a creation
  // ---------------------------------------------------------------------

  /** Creation followed by deletion restores every table exactly when the allocations were unassigned. */
  lemma CreateThenDeleteRestoresIff(t: Tables, s: Id, q: Request, p: Placement)
    requires Unused(t, s)
    ensures Deletion.Deleted(Created(t, s, q, p), s) == t <==> AllUnassigned(t, Chosen(q, p))
  {
    var t1 := Created(t, s, q, p);
    var t' := Deletion.Deleted(t1, s);
    StoredKeys(t.variables, s, q.variables);
    assert t'.variables == t.variables;
    assert t'.servers == t.servers;
    assert t'.transfers == t.transfers;
    assert t'.databases == t.databases;
    AllocationsRestoredIff(t, s, q, p);
  }

  lemma AllocationsRestoredIff(t: Tables, s: Id, q: Request, p: Placement)
    requires Unused(t, s)
    ensures Deletion.Deleted(Created(t, s, q, p), s).allocations == t.allocations <==> AllUnassigned(t, Chosen(q, p))
  {
    var ids := Chosen(q, p);
    var m := Deletion.Deleted(Created(t, s, q, p), s).allocations;
    assert forall a | a in t.allocations :: a in Owned(Created(t, s, q, p), s) <==> a in ids;
    assert forall a | a in t.allocations :: m[a] == if a in ids then t.allocations[a].(owner := None) else t.allocations[a];
    if m == t.allocations {
      forall a | a in t.allocations && a in ids
        ensures t.allocations[a].owner == None
      {
        assert m[a].owner == None;
      }
    }
  }

  // ---------------------------------------------------------------------
  // The service
  // ---------------------------------------------------------------------

  /** The allocations that fit a deployment. */
  function Suitable(t: Tables, d: Deployment): set<Id> {
    Selection.EligibleFor(t.allocations, d.nodes, d.ports, d.dedicated)
  }

  function NoPlace(d: Deployment): Error {
    NotSelected(if Selection.AnyTooWide(d.ports) then Selection.TooManyPorts else Selection.NoViableAllocation)
  }

  /** `configureDeployment`. */
  method ConfigureDeployment(db: Panel, selection: Selection.AllocationSelectionService, d: Deployment)
    returns (r: Result<Id, Error>)
    modifies selection
    ensures r.Success? ==> r.value in Suitable(db.View(), d)
    ensures r.Failure? <==> Selection.AnyTooWide(d.ports) || Suitable(db.View(), d) == {}
    ensures r.Failure? ==> r.error == NoPlace(d)
    ensures r == Failure(NotSelected(Selection.TooManyPorts)) <==> Selection.AnyTooWide(d.ports)
  {
    selection.SetDedicated(d.dedicated);
    selection.SetNodes(d.nodes);
    var error := selection.SetPorts(d.ports);
    if error.Some? {
      return Failure(NotSelected(error.value));
    }
    assert Selection.Eligible(db.allocations, d.nodes, selection.ports, d.dedicated) == Suitable(db.View(), d);
    var chosen := selection.Handle(db);
    if chosen.Failure? {
      return Failure(NotSelected(chosen.error));
    }
    return Success(chosen.value);
  }

  /** With a deployment: some suitable allocation and its node, or the reason why there is none. */
  predicate PlacedFor(t: Tables, d: Deployment, r: Result<Placement, Error>) {
    match r
    case Success(p) =>
      !Selection.AnyTooWide(d.ports) && p.allocation in Suitable(t, d) && p.node == t.allocations[p.allocation].node
    case Failure(error) =>
      (Selection.AnyTooWide(d.ports) || Suitable(t, d) == {}) && error == NoPlace(d)
  }

  /** The node and the default allocation of the new server, before anything is written. */
  method Place(db: Panel, selection: Selection.AllocationSelectionService, q: Request, deployment: Option<Deployment>)
    returns (r: Result<Placement, Error>)
    modifies selection
    ensures deployment.Some? ==> PlacedFor(db.View(), deployment.value, r)
    ensures deployment.None? ==> r == PlacedAsAsked(db.View(), q)
  {
    var node, allocation := q.node, q.allocation;
    if deployment.Some? {
      var found := ConfigureDeployment(db, selection, deployment.value);
      if found.Failure? {
        return Failure(found.error);
      }
      return Success(Placement(db.allocations[found.value].node, found.value));
    }
    if node.None? {
      if allocation.None? {
        return Failure(NoAllocationGiven);
      }
      if allocation.value !in db.allocations {
        return Failure(AllocationNotFound);
      }
      node := Some(db.allocations[allocation.value].node);
    }
    if allocation.None? {
      return Failure(InvalidServer);
    }
    return Success(Placement(node.value, allocation.value));
  }

  /** Without a deployment: the node of the allocation unless the request names one. */
  function PlacedAsAsked(t: Tables, q: Request): Result<Placement, Error> {
    match (q.node, q.allocation)
    case (None, None) => Failure(NoAllocationGiven)
    case (None, Some(a)) =>
      if a in t.allocations then Success(Placement(t.allocations[a].node, a)) else Failure(AllocationNotFound)
    case (Some(_), None) => Failure(InvalidServer)
    case (Some(n), Some(a)) => Success(Placement(n, a))
  }

  /** The transaction: the server, its allocations, its variables; or nothing. */
  method Persist(db: Panel, q: Request, p: Placement) returns (r: Result<Id, Error>)
    requires db.Numbered()
    modifies db
    ensures db.Numbered()
    ensures r == Success(old(db.lastServer) + 1) || r == Failure(InvalidServer)
    ensures r.Success? <==> (p.allocation in old(db.allocations)
      && forall x | x in old(db.servers) :: old(db.servers)[x].allocation != p.allocation)
    ensures db.View() == if r.Success? then Created(old(db.View()), r.value, q, p) else old(db.View())
  {
    var taken := exists s | s in db.servers :: db.servers[s].allocation == p.allocation;
    if p.allocation !in db.allocations || taken {
      return Failure(InvalidServer);
    }
    db.lastServer := db.lastServer + 1;
    var s := db.lastServer;
    db.servers := db.servers[s := Server(p.node, p.allocation, Some(Installing))];
    var records := [p.allocation] + q.additional;
    db.allocations := SetOwner(db.allocations, (set a | a in records), Some(s), false);
    assert Chosen(q, p) == set a | a in records;
    StoreVariables(db, s, q.variables);
    return Success(s);
  }

  method StoreVariables(db: Panel, s: Id, list: seq<(Id, Option<string>)>)
    modifies db`variables
    ensures db.variables == Stored(old(db.variables), s, list)
  {
    for i := 0 to |list|
      invariant db.variables == Stored(old(db.variables), s, list[..i])
    {
      assert list[..i + 1][..i] == list[..i];
      db.variables := db.variables[(s, list[i].0) := list[i].1.GetOr("")];
    }
    assert list[..|list|] == list;
  }

  /** How the daemon takes the new server; only a failed connection is caught. */
  datatype Answer = Accepts | Unreachable | Refuses

  /** What is left in the tables after a call that placed the server at `p`. */
  function After(t: Tables, s: Id, q: Request, p: Placement, answer: Answer): Tables {
    if answer != Unreachable then Created(t, s, q, p) else Deletion.Deleted(Created(t, s, q, p), s)
  }

  function Answered(s: Id, answer: Answer): Result<Id, Error> {
    match answer
    case Accepts => Success(s)
    case Unreachable => Failure(DaemonUnreachable)
    case Refuses => Failure(DaemonRefused)
  }

  /** The answer and the tables for a placement: an invalid server is not stored at all. */
  function Outcome(t: Tables, s: Id, q: Request, p: Placement, answer: Answer): (Result<Id, Error>, Tables) {
    if IsFreeHome(t, p.allocation) then (Answered(s, answer), After(t, s, q, p, answer)) else (Failure(InvalidServer), t)
  }

  function Finished(t: Tables, s: Id, q: Request, placed: Result<Placement, Error>, answer: Answer)
    : (Result<Id, Error>, Tables)
  {
    match placed
    case Failure(error) => (Failure(error), t)
    case Success(p) => Outcome(t, s, q, p, answer)
  }

  /** The part after the placement: the transaction, the call to the daemon and the cleanup. */
  method Install(db: Panel, deletion: Deletion.ServerDeletionService, q: Request, p: Placement,
      answer: Answer, cleanup: Deletion.DaemonReply, dropped: set<Id>) returns (r: Result<Id, Error>)
    requires db.Numbered()
    modifies db, deletion
    ensures db.Numbered()
    ensures (r, db.View()) == Outcome(old(db.View()), old(db.lastServer) + 1, q, p, answer)
  {
    var stored := Persist(db, q, p);
    if stored.Failure? {
      return Failure(stored.error);
    }
    var s := stored.value;
    if answer == Unreachable {
      deletion.WithForce(true);
      var gone := deletion.Handle(db, s, cleanup, dropped);
      return Failure(DaemonUnreachable);
    }
    return if answer == Refuses then Failure(DaemonRefused) else Success(s);
  }

  /** Whether the cleanup reaches the daemon, and which databases it drops, does not matter. */
  method Handle(db: Panel, selection: Selection.AllocationSelectionService, deletion: Deletion.ServerDeletionService,
      q: Request, deployment: Option<Deployment>, answer: Answer, cleanup: Deletion.DaemonReply, dropped: set<Id>)
    returns (r: Result<Id, Error>, ghost placed: Result<Placement, Error>)
    requires db.Numbered()
    modifies db, selection, deletion
    ensures db.Numbered()
    ensures deployment.Some? && placed.Success? ==>
      placed.value.allocation in old(db.allocations)
      && placed.value.node == old(db.allocations)[placed.value.allocation].node
      && old(db.allocations)[placed.value.allocation].owner == None
    ensures deployment.None? ==> placed == PlacedAsAsked(old(db.View()), q)
    ensures deployment.Some? ==> PlacedFor(old(db.View()), deployment.value, placed)
    ensures (r, db.View()) == Finished(old(db.View()), old(db.lastServer) + 1, q, placed, answer)
  {
    var p := Place(db, selection, q, deployment);
    placed := p;
    if p.Failure? {
      return Failure(p.error), placed;
    }
    r := Install(db, deletion, q, p.value, answer, cleanup, dropped);
  }

  /**
    Where a server goes without a deployment: to the node that is named, or else
    that of the allocation, waiting to be installed. It stays unless the daemon
    cannot be reached, even if the daemon refuses it; and why there is none.
  */
  lemma ServerGoesWhereAsked(t: Tables, s: Id, q: Request, answer: Answer)
    requires s !in t.servers
    ensures var (r, t') := Finished(t, s, q, PlacedAsAsked(t, q), answer);
      && (r == Failure(NoAllocationGiven) <==> q.node.None? && q.allocation.None?)
      && (r == Failure(AllocationNotFound) <==>
        q.node.None? && q.allocation.Some? && q.allocation.value !in t.allocations)
      && (r == Failure(InvalidServer) <==>
        (q.node.Some? && (q.allocation.None? || q.allocation.value !in t.allocations))
        || (q.allocation.Some? && q.allocation.value in t.allocations && !IsFreeHome(t, q.allocation.value)))
      && (r == Success(s) <==>
        q.allocation.Some? && IsFreeHome(t, q.allocation.value) && answer == Accepts)
      && (s in t'.servers <==>
        q.allocation.Some? && IsFreeHome(t, q.allocation.value) && answer != Unreachable)
      && (s in t'.servers ==> t'.servers[s] == Server(
        if q.node.Some? then q.node.value else t.allocations[q.allocation.value].node,
        q.allocation.value, Some(Installing)))
      && t'.servers - {s} == t.servers
  {
  }

  /**
    What a placed server has afterwards: the chosen allocations are its own, or
    free again if the daemon could not be reached, whoever had them before. No
    other allocation, no variable of another server, no transfer and no database changes.
  */
  lemma RowsOfANewServer(t: Tables, s: Id, q: Request, p: Placement, answer: Answer)
    requires Unused(t, s) && IsFreeHome(t, p.allocation)
    ensures var t' := Outcome(t, s, q, p, answer).1;
      && t'.allocations.Keys == t.allocations.Keys
      && (forall a | a in t.allocations && (a == p.allocation || a in q.additional) ::
        t'.allocations[a] == t.allocations[a].(owner := if answer == Unreachable then None else Some(s)))
      && (forall a | a in t.allocations && a != p.allocation && a !in q.additional ::
        t'.allocations[a] == t.allocations[a])
      && (forall i | 0 <= i < |q.variables| && answer != Unreachable :: (s, q.variables[i].0) in t'.variables)
      && (forall v | v in t'.variables && v !in t.variables :: v.0 == s && answer != Unreachable)
      && (forall v | v in t.variables :: v in t'.variables && t'.variables[v] == t.variables[v])
      && t'.transfers == t.transfers && t'.databases == t.databases
  {
    StoredKeys(t.variables, s, q.variables);
    Deletion.OnlyTheServerGoes(Created(t, s, q, p), s);
    assert Deletion.Deleted(Created(t, s, q, p), s).transfers == t.transfers;
    assert Deletion.Deleted(Created(t, s, q, p), s).databases == t.databases;
  }

  /** A failed creation leaves no trace when the allocations were unassigned, and only then. */
  lemma FailedCreationLeavesNoTraceIff(t: Tables, s: Id, q: Request, p: Placement)
    requires Inv(t) && s !in t.servers && IsFreeHome(t, p.allocation)
    ensures After(t, s, q, p, Unreachable) == t <==> AllUnassigned(t, Chosen(q, p))
  {
    NewIsUnused(t, s);
    CreateThenDeleteRestoresIff(t, s, q, p);
  }

  /** Even a failed creation then breaks the invariant when it took a default allocation. */
  lemma FailedCreationKeepsInvIff(t: Tables, s: Id, q: Request, p: Placement)
    requires Inv(t) && s !in t.servers && IsFreeHome(t, p.allocation)
    ensures Inv(After(t, s, q, p, Unreachable)) <==> forall r | r in t.servers :: t.servers[r].allocation !in Chosen(q, p)
  {
    CreateKeepsInvIff(t, s, q, p);
    if Inv(Created(t, s, q, p)) {
      Deletion.DeletionKeepsInv(Created(t, s, q, p), s);
    }
    if Inv(After(t, s, q, p, Unreachable)) {
      SurvivorsKeepTheirDefaults(t, s, q, p);
    }
  }

  lemma SurvivorsKeepTheirDefaults(t: Tables, s: Id, q: Request, p: Placement)
    requires s !in t.servers && DefaultsOwned(After(t, s, q, p, Unreachable))
    ensures forall r | r in t.servers :: t.servers[r].allocation !in Chosen(q, p)
  {
    var t1, t' := Created(t, s, q, p), After(t, s, q, p, Unreachable);
    forall r | r in t.servers
      ensures t.servers[r].allocation !in Chosen(q, p)
    {
      assert t'.servers[r] == t.servers[r];
      assert t'.servers[r].allocation in Owned(t', r);
      Deletion.OthersUntouched(t1, s, r);
      assert t.servers[r].allocation in Owned(t1, r);
    }
  }
}
