/**
  Moving a server to another node: the start reserves allocations on the target
  node (app/Services/Servers/TransferServerService.php), and the daemon later
  reports failure or success
  (app/Http/Controllers/Api/Remote/Servers/ServerTransferController.php).
*/
module Transfers {
  import opened Wrappers
  import opened Database

  datatype Error = Conflict | NotNotified | InvalidServer

  /** What is asked for: a node, its default allocation for the server, and more of them. */
  datatype Target = Target(node: Id, allocation: Id, additional: seq<Id>)

  // ---------------------------------------------------------------------
  // Start
  // ---------------------------------------------------------------------

  /** `validateTransferState`. */
  predicate CanTransfer(t: Tables, s: Id)
    requires s in t.servers
  {
    && t.servers[s].status !in [Some(Installing), Some(InstallFailed), Some(RestoringBackup)]
    && OpenTransfers(t, s) == {}
  }

  function Requested(g: Target): set<Id> {
    (set a | a in g.additional) + {g.allocation}
  }

  /** Of the requested allocations, those that the server gets at once. */
  function Reserved(t: Tables, g: Target): set<Id> {
    set a | a in t.allocations && a in Requested(g)
      && t.allocations[a].node == g.node && t.allocations[a].owner == None
  }

  function TransferRow(t: Tables, s: Id, g: Target): Transfer
    requires s in t.servers
  {
    Transfer(s, t.servers[s].node, g.node, t.servers[s].allocation, g.allocation,
      Owned(t, s) - {t.servers[s].allocation}, g.additional, None)
  }

  /** The tables after the start of transfer `x`. */
  function Started(t: Tables, s: Id, g: Target, x: Id): Tables
    requires s in t.servers
  {
    t.(transfers := t.transfers[x := TransferRow(t, s, g)],
      allocations := SetOwner(t.allocations, Reserved(t, g), Some(s), false))
  }

  /** A start keeps the invariant exactly when no transfer of the server was open. */
  lemma StartKeepsInvIff(t: Tables, s: Id, g: Target, x: Id)
    requires Inv(t) && s in t.servers && x !in t.transfers
    ensures Inv(Started(t, s, g, x)) <==> OpenTransfers(t, s) == {}
  {
    var t' := Started(t, s, g, x);
    var t1 := t.(allocations := t'.allocations);
    AssignUnassignedKeepsInv(t, Reserved(t, g), s, false);
    OthersAfterStart(t1, x, TransferRow(t, s, g));
    OpenAfterStart(t, s, g, x);
  }

  /** A transfer row of a known server only matters to the rule on open transfers. */
  lemma OthersAfterStart(t: Tables, x: Id, row: Transfer)
    requires UniqueKeys(t.allocations) && OwnersExist(t) && DefaultsOwned(t) && References(t)
    requires row.server in t.servers
    ensures var t' := t.(transfers := t.transfers[x := row]);
      UniqueKeys(t'.allocations) && OwnersExist(t') && DefaultsOwned(t') && References(t')
  {
    var t' := t.(transfers := t.transfers[x := row]);
    forall r | r in t'.servers
      ensures t'.servers[r].allocation in Owned(t', r)
    {
      assert t.servers[r].allocation in Owned(t, r);
    }
  }

  lemma OpenAfterStart(t: Tables, s: Id, g: Target, x: Id)
    requires OneOpenTransfer(t) && s in t.servers && x !in t.transfers
    ensures OneOpenTransfer(Started(t, s, g, x)) <==> OpenTransfers(t, s) == {}
  {
    var t' := Started(t, s, g, x);
    assert forall y | y in t.transfers :: t'.transfers[y] == t.transfers[y];
    if OpenTransfers(t, s) != {} {
      var y :| y in OpenTransfers(t, s);
      assert t'.transfers[y].server == t'.transfers[x].server;
    } else {
      forall y, z | y in t'.transfers && z in t'.transfers && t'.transfers[y].server == t'.transfers[z].server
        && t'.transfers[y].successful == None && t'.transfers[z].successful == None
        ensures y == z
      {
        assert y in t.transfers ==> y !in OpenTransfers(t, s);
        assert z in t.transfers ==> z !in OpenTransfers(t, s);
      }
    }
  }

  /** The new row, the reserved allocations and the call to the old node: one transaction. */
  method Start(db: Panel, s: Id, g: Target, viable: bool, notified: bool) returns (r: Result<bool, Error>)
    requires db.Valid() && s in db.servers
    modifies db
    ensures db.Valid()
    ensures r == if !viable then Success(false)
                 else if !CanTransfer(old(db.View()), s) then Failure(Conflict)
                 else if !notified then Failure(NotNotified)
                 else Success(true)
    ensures r == Success(true) ==> db.View() == Started(old(db.View()), s, g, old(db.lastTransfer) + 1)
    ensures r != Success(true) ==> db.View() == old(db.View())
  {
    if !viable {
      return Success(false);
    }
    if db.servers[s].status in [Some(Installing), Some(InstallFailed), Some(RestoringBackup)]
        || OpenTransfers(db.View(), s) != {} {
      return Failure(Conflict);
    }
    r := Attempt(db, s, g, notified);
  }

  /** The start of a transfer that the checks have let pass. */
  method Attempt(db: Panel, s: Id, g: Target, notified: bool) returns (r: Result<bool, Error>)
    requires db.Valid() && s in db.servers && OpenTransfers(db.View(), s) == {}
    modifies db
    ensures db.Valid()
    ensures r == if notified then Success(true) else Failure(NotNotified)
    ensures db.View() ==
      if notified then Started(old(db.View()), s, g, old(db.lastTransfer) + 1) else old(db.View())
  {
    ghost var t, x := db.View(), db.lastTransfer + 1;
    Transaction(db, s, g, notified);
    AttemptKeepsInv(t, db.View(), s, g, x, notified);
    return if notified then Success(true) else Failure(NotNotified);
  }

  lemma AttemptKeepsInv(t: Tables, t': Tables, s: Id, g: Target, x: Id, notified: bool)
    requires Inv(t) && s in t.servers && OpenTransfers(t, s) == {} && x !in t.transfers
    requires t' == if notified then Started(t, s, g, x) else t
    ensures Inv(t')
  {
    StartKeepsInvIff(t, s, g, x);
  }

  /** Everything is undone when the old node cannot be told. */
  method Transaction(db: Panel, s: Id, g: Target, notified: bool)
    requires db.Numbered() && s in db.servers
    modifies db
    ensures db.Numbered()
    ensures db.View() ==
      if notified then Started(old(db.View()), s, g, old(db.lastTransfer) + 1) else old(db.View())
  {
    var saved := db.View();
    CreateTransfer(db, s, g);
    if !notified {
      db.Rollback(saved);
    }
  }

  /** The two updates of the transaction. */
  method CreateTransfer(db: Panel, s: Id, g: Target)
    requires db.Numbered() && s in db.servers
    modifies db`transfers, db`allocations, db`lastTransfer
    ensures db.Numbered() && db.lastTransfer == old(db.lastTransfer) + 1
    ensures db.View() == Started(old(db.View()), s, g, db.lastTransfer)
  {
    ghost var t := db.View();
    var server := db.servers[s];
    var others := set a | a in db.allocations && db.allocations[a].owner == Some(s) && a != server.allocation;
    assert others == Owned(t, s) - {server.allocation};
    db.lastTransfer := db.lastTransfer + 1;
    db.transfers := db.transfers[db.lastTransfer :=
      Transfer(s, server.node, g.node, server.allocation, g.allocation, others, g.additional, None)];
    AssignAllocations(db, s, g);
    assert SetOwner(t.allocations, Reserved(t, g), Some(s), false).Keys == t.allocations.Keys;
  }

  /** `assignAllocationsToServer`: requested rows that someone has are skipped silently. */
  method AssignAllocations(db: Panel, s: Id, g: Target)
    modifies db`allocations
    ensures db.allocations == SetOwner(old(db.allocations), Reserved(old(db.View()), g), Some(s), false)
  {
    var allocations := g.additional + [g.allocation];
    var unassigned := set a | a in db.allocations
      && db.allocations[a].node == g.node && db.allocations[a].owner == None;
    var updateIds: seq<Id> := [];
    for k := 0 to |allocations|
      invariant forall a :: a in updateIds <==> a in allocations[..k] && a in unassigned
    {
      assert allocations[..k + 1] == allocations[..k] + [allocations[k]];
      if allocations[k] !in unassigned {
        continue;
      }
      updateIds := updateIds + [allocations[k]];
    }
    assert allocations[..|allocations|] == allocations;
    var ids := set a | a in updateIds;
    assert ids == Reserved(db.View(), g) by {
      assert forall a :: a in allocations <==> a in Requested(g);
    }
    if updateIds != [] {
      db.allocations := SetOwner(db.allocations, ids, Some(s), false);
    } else {
      assert ids == {} && SetOwner(db.allocations, ids, Some(s), false) == db.allocations;
    }
  }

  // ---------------------------------------------------------------------
  // Reports of the daemon
  // ---------------------------------------------------------------------

  /** The open transfer that a report is about: the latest, if there is one. */
  predicate Current(t: Tables, s: Id, x: Id) {
    x in OpenTransfers(t, s) && forall y | y in OpenTransfers(t, s) :: y <= x
  }

  function NewSide(row: Transfer): set<Id> {
    (set a | a in row.newAdditional) + {row.newAllocation}
  }

  function OldSide(row: Transfer): set<Id> {
    row.oldAdditional + {row.oldAllocation}
  }

  /** A failed transfer gives the new allocations back. */
  function Failed(t: Tables, x: Id): Tables
    requires x in t.transfers
  {
    t.(transfers := t.transfers[x := t.transfers[x].(successful := Some(false))],
      allocations := SetOwner(t.allocations, NewSide(t.transfers[x]), None, false))
  }

  /** A transfer that succeeded gives the old ones back and moves the server. */
  function Succeeded(t: Tables, s: Id, x: Id): Tables
    requires s in t.servers && x in t.transfers
  {
    var row := t.transfers[x];
    t.(transfers := t.transfers[x := row.(successful := Some(true))],
      servers := t.servers[s := t.servers[s].(allocation := row.newAllocation, node := row.newNode)],
      allocations := SetOwner(t.allocations, OldSide(row), None, false))
  }

  /** The rules on `allocation_id`: it exists, and no other server has it as its default. */
  predicate MovedServerIsValid(t: Tables, s: Id, allocation: Id) {
    allocation in t.allocations && forall r | r in t.servers && r != s :: t.servers[r].allocation != allocation
  }

  predicate NoDefaultIn(t: Tables, ids: set<Id>) {
    forall s | s in t.servers :: t.servers[s].allocation !in ids
  }

  /** Settling a transfer never opens one. */
  lemma SettledKeepsTransfers(t: Tables, x: Id, outcome: bool)
    requires OneOpenTransfer(t) && References(t) && x in t.transfers
    ensures var t' := t.(transfers := t.transfers[x := t.transfers[x].(successful := Some(outcome))]);
      OneOpenTransfer(t') && References(t')
  {
    var t' := t.(transfers := t.transfers[x := t.transfers[x].(successful := Some(outcome))]);
    forall y, z | y in t'.transfers && z in t'.transfers && t'.transfers[y].server == t'.transfers[z].server
      && t'.transfers[y].successful == None && t'.transfers[z].successful == None
      ensures y == z
    {
      assert t.transfers[y] == t'.transfers[y] && t.transfers[z] == t'.transfers[z];
    }
  }

  /** A failure keeps the invariant exactly when it gives no server's default away. */
  lemma FailKeepsInvIff(t: Tables, x: Id)
    requires Inv(t) && x in t.transfers
    ensures Inv(Failed(t, x)) <==> NoDefaultIn(t, NewSide(t.transfers[x]))
  {
    var t1 := t.(transfers := t.transfers[x := t.transfers[x].(successful := Some(false))]);
    SettledKeepsTransfers(t, x, false);
    assert Inv(t1) by {
      assert forall s | s in t.servers :: Owned(t1, s) == Owned(t, s);
    }
    SetOwnerKeepsInvIff(t1, NewSide(t.transfers[x]), None, false);
  }

  /** What a success needs: the new default is the server's own, and only its rows are given back. */
  predicate MoveIsSafe(t: Tables, s: Id, row: Transfer) {
    && row.newAllocation in Owned(t, s) && row.newAllocation !in OldSide(row)
    && forall r | r in t.servers && r != s :: t.servers[r].allocation !in OldSide(row)
  }

  lemma SucceedKeepsInvIff(t: Tables, s: Id, x: Id)
    requires Inv(t) && s in t.servers && x in t.transfers
    ensures Inv(Succeeded(t, s, x)) <==> MoveIsSafe(t, s, t.transfers[x])
  {
    var row := t.transfers[x];
    var t' := Succeeded(t, s, x);
    SettledKeepsTransfers(t, x, true);
    SetOwnerKeepsKeys(t.allocations, OldSide(row), None, false);
    OwnersAfterSetOwner(t, OldSide(row), None, false);
    assert OneOpenTransfer(t') && References(t') && OwnersExist(t') && UniqueKeys(t'.allocations);
    DefaultsAfterMove(t, s, x);
  }

  lemma DefaultsAfterMove(t: Tables, s: Id, x: Id)
    requires DefaultsOwned(t) && s in t.servers && x in t.transfers
    ensures DefaultsOwned(Succeeded(t, s, x)) <==> MoveIsSafe(t, s, t.transfers[x])
  {
    var row := t.transfers[x];
    var t' := Succeeded(t, s, x);
    assert forall r :: Owned(t', r) == Owned(t, r) - OldSide(row);
    if DefaultsOwned(t') {
      assert t'.servers[s].allocation in Owned(t', s);
      forall r | r in t.servers && r != s
        ensures t.servers[r].allocation !in OldSide(row)
      {
        assert t'.servers[r].allocation in Owned(t', r);
      }
    }
    if MoveIsSafe(t, s, row) {
      forall r | r in t'.servers
        ensures t'.servers[r].allocation in Owned(t', r)
      {
        assert t.servers[r].allocation in Owned(t, r);
      }
    }
  }

  /** The daemon reports that the transfer failed. */
  method Fail(db: Panel, s: Id) returns (r: Result<(), Error>)
    requires db.Valid() && s in db.servers
    modifies db
    ensures r.Failure? <==> OpenTransfers(old(db.View()), s) == {}
    ensures r.Failure? ==> db.View() == old(db.View()) && r.error == Conflict
    ensures r.Success? ==>
      exists x :: Current(old(db.View()), s, x) && db.View() == Failed(old(db.View()), x)
        && (db.Valid() <==> NoDefaultIn(old(db.View()), NewSide(old(db.transfers)[x])))
  {
    ghost var t := db.View();
    var found := Latest(db, s);
    if found.None? {
      return Failure(Conflict);
    }
    FailKeepsInvIff(t, found.value);
    MarkFailed(db, found.value);
    assert Current(t, s, found.value);
    return Success(());
  }

  /** The two updates of the transaction. */
  method MarkFailed(db: Panel, x: Id)
    requires db.Numbered() && x in db.transfers
    modifies db`transfers, db`allocations
    ensures db.Numbered() && db.View() == Failed(old(db.View()), x)
  {
    var row := db.transfers[x];
    db.transfers := db.transfers[x := row.(successful := Some(false))];
    var ids := [row.newAllocation] + row.newAdditional;
    db.allocations := SetOwner(db.allocations, (set a | a in ids), None, false);
    assert NewSide(row) == set a | a in ids;
  }

  /** `whereNull('successful')->orderByDesc('id')`, first row. */
  method Latest(db: Panel, s: Id) returns (found: Option<Id>)
    ensures found.None? <==> OpenTransfers(db.View(), s) == {}
    ensures found.Some? ==> Current(db.View(), s, found.value)
  {
    found := None;
    var todo := OpenTransfers(db.View(), s);
    ghost var seen: set<Id> := {};
    while todo != {}
      invariant seen + todo == OpenTransfers(db.View(), s) && seen !! todo
      invariant found.None? <==> seen == {}
      invariant found.Some? ==> found.value in seen && forall y | y in seen :: y <= found.value
      decreases todo
    {
      var y :| y in todo;
      todo := todo - {y};
      seen := seen + {y};
      if found.None? || found.value < y {
        found := Some(y);
      }
    }
  }

  /** The daemon reports that the transfer succeeded; an invalid move is rolled back. */
  method Succeed(db: Panel, s: Id) returns (r: Result<(), Error>)
    requires db.Valid() && s in db.servers
    modifies db
    ensures r == Failure(Conflict) <==> OpenTransfers(old(db.View()), s) == {}
    ensures r.Failure? ==> db.View() == old(db.View())
    ensures r == Failure(InvalidServer) ==>
      exists x :: Current(old(db.View()), s, x)
        && !MovedServerIsValid(old(db.View()), s, old(db.transfers)[x].newAllocation)
    ensures r.Success? ==>
      exists x :: Current(old(db.View()), s, x) && db.View() == Succeeded(old(db.View()), s, x)
        && MovedServerIsValid(old(db.View()), s, old(db.transfers)[x].newAllocation)
        && (Inv(db.View()) <==> MoveIsSafe(old(db.View()), s, old(db.transfers)[x]))
  {
    var saved := db.View();
    var found := Latest(db, s);
    if found.None? {
      return Failure(Conflict);
    }
    var x := found.value;
    SucceedKeepsInvIff(saved, s, x);
    var moved := Move(db, s, x);
    assert Current(saved, s, x);
    if !moved {
      db.Rollback(saved);
      return Failure(InvalidServer);
    }
    return Success(());
  }

  /** The updates of the transaction; the second one can be refused. */
  method Move(db: Panel, s: Id, x: Id) returns (valid: bool)
    requires s in db.servers && x in db.transfers
    modifies db`transfers, db`allocations, db`servers
    ensures var a := old(db.transfers)[x].newAllocation; valid <==>
      (a in old(db.allocations)
       && forall r | r in old(db.servers) && r != s :: old(db.servers)[r].allocation != a)
    ensures valid ==> db.View() == Succeeded(old(db.View()), s, x)
  {
    var row := db.transfers[x];
    db.allocations := SetOwner(db.allocations, {row.oldAllocation} + row.oldAdditional, None, false);
    assert OldSide(row) == {row.oldAllocation} + row.oldAdditional;
    var taken := exists r | r in db.servers :: r != s && db.servers[r].allocation == row.newAllocation;
    if row.newAllocation !in db.allocations || taken {
      return false;
    }
    db.servers := db.servers[s := db.servers[s].(allocation := row.newAllocation, node := row.newNode)];
    db.transfers := db.transfers[x := row.(successful := Some(true))];
    return true;
  }

  // ---------------------------------------------------------------------
  // A start and its report
  // ---------------------------------------------------------------------

  /** A start that fails restores the allocations exactly when nobody had one of the requested ones. */
  lemma StartThenFailRestoresIff(t: Tables, s: Id, g: Target, x: Id)
    requires s in t.servers && x !in t.transfers
    ensures Failed(Started(t, s, g, x), x).allocations == t.allocations
      <==> forall a | a in t.allocations && a in Requested(g) :: t.allocations[a].owner == None
  {
    var t1 := Started(t, s, g, x);
    var m := Failed(t1, x).allocations;
    assert NewSide(t1.transfers[x]) == Requested(g);
    assert forall a | a in m && a in Requested(g) :: m[a] == t.allocations[a].(owner := None);
    assert forall a | a in m && a !in Requested(g) :: m[a] == t.allocations[a];
    if m == t.allocations {
      forall a | a in t.allocations && a in Requested(g)
        ensures t.allocations[a].owner == None
      {
        assert m[a].owner == None;
      }
    }
  }

  /** A row that a start reserves: free, on the target node, and asked for. */
  predicate IsFreeTarget(row: Allocation, a: Id, g: Target) {
    row.owner == None && row.node == g.node && (a == g.allocation || a in g.additional)
  }

  /**
    A start and a report of success move the server to the target: its row has
    the new node and default, what it had is free, what was free of the target
    is its own, and the transfer is settled. Nothing else changes.
  */
  lemma SuccessMovesTheServer(t: Tables, s: Id, g: Target, x: Id)
    requires s in t.servers && x !in t.transfers && t.servers[s].allocation in Owned(t, s)
    ensures var t' := Succeeded(Started(t, s, g, x), s, x);
      && t'.servers == t.servers[s := t.servers[s].(node := g.node, allocation := g.allocation)]
      && IsSettled(t, t', s, g, x, true)
      && t'.allocations.Keys == t.allocations.Keys
      && (forall a | a in t.allocations && t.allocations[a].owner == Some(s) ::
        t'.allocations[a] == t.allocations[a].(owner := None))
      && (forall a | a in t.allocations && IsFreeTarget(t.allocations[a], a, g) ::
        t'.allocations[a] == t.allocations[a].(owner := Some(s)))
      && (forall a | a in t.allocations && t.allocations[a].owner != Some(s) && !IsFreeTarget(t.allocations[a], a, g) ::
        t'.allocations[a] == t.allocations[a])
      && t'.variables == t.variables && t'.databases == t.databases
  {
    OwnedAfterStart(t, s, g, x);
  }

  /**
    A start and a report of failure leave every server where it was and settle
    the transfer; whoever had a requested allocation has lost it.
  */
  lemma FailureMovesNobody(t: Tables, s: Id, g: Target, x: Id)
    requires s in t.servers && x !in t.transfers
    ensures var t' := Failed(Started(t, s, g, x), x);
      && t'.servers == t.servers && IsSettled(t, t', s, g, x, false)
      && t'.allocations.Keys == t.allocations.Keys
      && (forall a | a in t.allocations && (a == g.allocation || a in g.additional) ::
        t'.allocations[a] == t.allocations[a].(owner := None))
      && (forall a | a in t.allocations && a != g.allocation && a !in g.additional :: t'.allocations[a] == t.allocations[a])
      && t'.variables == t.variables && t'.databases == t.databases
  {
  }

  /** The transfer has its outcome, and says where the server came from and was to go; all others are as they were. */
  ghost predicate IsSettled(t: Tables, t': Tables, s: Id, g: Target, x: Id, outcome: bool)
    requires s in t.servers
  {
    && t'.transfers.Keys == t.transfers.Keys + {x} && (forall y | y in t.transfers :: t'.transfers[y] == t.transfers[y])
    && t'.transfers[x].successful == Some(outcome) && t'.transfers[x].server == s
    && t'.transfers[x].oldNode == t.servers[s].node && t'.transfers[x].newNode == g.node
    && t'.transfers[x].oldAllocation == t.servers[s].allocation && t'.transfers[x].newAllocation == g.allocation
  }

  /**
    A start is possible exactly when the server is neither being installed nor
    failed to install nor being restored, and all its transfers are settled.
  */
  lemma CanTransferIff(t: Tables, s: Id)
    requires s in t.servers
    ensures CanTransfer(t, s) <==>
      (t.servers[s].status != Some(Installing) && t.servers[s].status != Some(InstallFailed)
       && t.servers[s].status != Some(RestoringBackup)
       && forall x | x in t.transfers && t.transfers[x].server == s :: t.transfers[x].successful.Some?)
  {
    if CanTransfer(t, s) {
      assert forall x | x in t.transfers && t.transfers[x].server == s :: x !in OpenTransfers(t, s);
    }
  }

  /** ... and it keeps the invariant exactly when none of them was another server's default, or its own. */
  lemma StartThenFailKeepsInvIff(t: Tables, s: Id, g: Target, x: Id)
    requires Inv(t) && s in t.servers && CanTransfer(t, s) && x !in t.transfers
    ensures Inv(Failed(Started(t, s, g, x), x)) <==> NoDefaultIn(t, Requested(g))
  {
    StartKeepsInvIff(t, s, g, x);
    FailKeepsInvIff(Started(t, s, g, x), x);
    assert NewSide(Started(t, s, g, x).transfers[x]) == Requested(g);
  }

  /** A success keeps the invariant exactly when the new default was free on the target node. */
  lemma StartThenSucceedKeepsInvIff(t: Tables, s: Id, g: Target, x: Id)
    requires Inv(t) && s in t.servers && CanTransfer(t, s) && x !in t.transfers
    ensures Inv(Succeeded(Started(t, s, g, x), s, x)) <==> g.allocation in Reserved(t, g)
    ensures g.allocation in Reserved(t, g) ==>
      Owned(Succeeded(Started(t, s, g, x), s, x), s) == Reserved(t, g)
  {
    var t1 := Started(t, s, g, x);
    StartKeepsInvIff(t, s, g, x);
    SucceedKeepsInvIff(t1, s, x);
    OwnedAfterStart(t, s, g, x);
    forall r | r in t.servers && r != s
      ensures t.servers[r].allocation !in Owned(t, s)
    {
      assert t.servers[r].allocation in Owned(t, r);
    }
    assert Owned(Succeeded(t1, s, x), s) == Owned(t1, s) - Owned(t, s);
  }

  lemma OwnedAfterStart(t: Tables, s: Id, g: Target, x: Id)
    requires s in t.servers && t.servers[s].allocation in Owned(t, s)
    ensures var t1 := Started(t, s, g, x);
      && OldSide(t1.transfers[x]) == Owned(t, s)
      && Owned(t1, s) == Owned(t, s) + Reserved(t, g)
      && Reserved(t, g) !! Owned(t, s)
  {
  }
}
