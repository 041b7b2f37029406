/**
  The tables that decide who owns which allocation, and the invariant that all
  services have to keep (app/Models/Allocation.php, app/Models/Server.php).
*/
module Database {
  import opened Wrappers

  type Id = nat
  /** An IPv4 address as a number. */
  type Ip = nat

  datatype Allocation = Allocation(
    node: Id,
    ip: Ip,
    port: int,
    aliasName: Option<string>,
    owner: Option<Id>,
    notes: Option<string>)

  datatype ServerState = Normal | Installing | InstallFailed | ReinstallFailed | Suspended | RestoringBackup

  datatype Server = Server(node: Id, allocation: Id, status: Option<ServerState>)

  datatype Transfer = Transfer(
    server: Id,
    oldNode: Id,
    newNode: Id,
    oldAllocation: Id,
    newAllocation: Id,
    oldAdditional: set<Id>,
    newAdditional: seq<Id>,
    successful: Option<bool>)

  /** `variables` holds the value of a (server, egg variable) pair, `databases` the server of a database. */
  datatype Tables = Tables(
    allocations: map<Id, Allocation>,
    servers: map<Id, Server>,
    transfers: map<Id, Transfer>,
    variables: map<(Id, Id), string>,
    databases: map<Id, Id>)

  predicate SameKey(a: Allocation, b: Allocation) {
    a.node == b.node && a.ip == b.ip && a.port == b.port
  }

  function Owned(t: Tables, server: Id): set<Id> {
    set a | a in t.allocations && t.allocations[a].owner == Some(server)
  }

  predicate Unassigned(t: Tables, a: Id) {
    a in t.allocations && t.allocations[a].owner == None
  }

  /** `a` is the default allocation of some server. */
  predicate IsDefault(t: Tables, a: Id) {
    exists s | s in t.servers :: t.servers[s].allocation == a
  }

  /** The open transfers of a server: those without an outcome. */
  function OpenTransfers(t: Tables, server: Id): set<Id> {
    set x | x in t.transfers && t.transfers[x].server == server && t.transfers[x].successful == None
  }

  // ---------------------------------------------------------------------
  // The invariant
  // ---------------------------------------------------------------------

  /** The unique key (node, ip, port). */
  ghost predicate UniqueKeys(m: map<Id, Allocation>) {
    forall a, b | a in m && b in m && SameKey(m[a], m[b]) :: a == b
  }

  ghost predicate OwnersExist(t: Tables) {
    forall a | a in t.allocations && t.allocations[a].owner.Some? :: t.allocations[a].owner.value in t.servers
  }

  /** Every server owns its default allocation, so no two servers share one. */
  ghost predicate DefaultsOwned(t: Tables) {
    forall s | s in t.servers :: t.servers[s].allocation in Owned(t, s)
  }

  ghost predicate OneOpenTransfer(t: Tables) {
    forall x, y | x in t.transfers && y in t.transfers && t.transfers[x].server == t.transfers[y].server
      && t.transfers[x].successful == None && t.transfers[y].successful == None :: x == y
  }

  /** Foreign keys to servers. */
  ghost predicate References(t: Tables) {
    && (forall x | x in t.transfers :: t.transfers[x].server in t.servers)
    && (forall v | v in t.variables :: v.0 in t.servers)
    && (forall d | d in t.databases :: t.databases[d] in t.servers)
  }

  ghost predicate Inv(t: Tables) {
    UniqueKeys(t.allocations) && OwnersExist(t) && DefaultsOwned(t) && OneOpenTransfer(t) && References(t)
  }

  lemma NoSharedDefault(t: Tables, r: Id, s: Id)
    requires Inv(t) && r in t.servers && s in t.servers && t.servers[r].allocation == t.servers[s].allocation
    ensures r == s
  {
    assert t.servers[r].allocation in Owned(t, r) && t.servers[s].allocation in Owned(t, s);
  }

  // ---------------------------------------------------------------------
  // Bulk updates
  // ---------------------------------------------------------------------

  /** `update` of the owner of all listed rows; `clear` also drops their notes. */
  function SetOwner(m: map<Id, Allocation>, ids: set<Id>, owner: Option<Id>, clear: bool): map<Id, Allocation> {
    map a | a in m ::
      if a !in ids then m[a]
      else if clear then m[a].(owner := owner, notes := None)
      else m[a].(owner := owner)
  }

  lemma SetOwnerKeepsKeys(m: map<Id, Allocation>, ids: set<Id>, owner: Option<Id>, clear: bool)
    ensures SetOwner(m, ids, owner, clear).Keys == m.Keys
    ensures UniqueKeys(m) ==> UniqueKeys(SetOwner(m, ids, owner, clear))
  {
    var m' := SetOwner(m, ids, owner, clear);
    assert forall a | a in m :: a in m' && SameKey(m[a], m'[a]);
    if UniqueKeys(m) {
      forall a, b | a in m' && b in m' && SameKey(m'[a], m'[b])
        ensures a == b
      {
        assert SameKey(m[a], m[b]);
      }
    }
  }

  /** A bulk update keeps the invariant exactly when it takes no server's default away. */
  lemma SetOwnerKeepsInvIff(t: Tables, ids: set<Id>, owner: Option<Id>, clear: bool)
    requires Inv(t) && (owner.Some? ==> owner.value in t.servers)
    ensures Inv(t.(allocations := SetOwner(t.allocations, ids, owner, clear)))
      <==> (forall s | s in t.servers && t.servers[s].allocation in ids :: owner == Some(s))
  {
    var m := SetOwner(t.allocations, ids, owner, clear);
    var t' := t.(allocations := m);
    SetOwnerKeepsKeys(t.allocations, ids, owner, clear);
    OtherPartsKept(t, m);
    OwnersAfterSetOwner(t, ids, owner, clear);
    DefaultsAfterSetOwner(t, ids, owner, clear);
  }

  lemma OwnersAfterSetOwner(t: Tables, ids: set<Id>, owner: Option<Id>, clear: bool)
    requires OwnersExist(t) && (owner.Some? ==> owner.value in t.servers)
    ensures OwnersExist(t.(allocations := SetOwner(t.allocations, ids, owner, clear)))
  {
    var m := SetOwner(t.allocations, ids, owner, clear);
    assert forall a | a in m :: m[a].owner == t.allocations[a].owner || m[a].owner == owner;
  }

  /** The rest of the invariant does not look at allocations. */
  lemma OtherPartsKept(t: Tables, m: map<Id, Allocation>)
    ensures OneOpenTransfer(t) ==> OneOpenTransfer(t.(allocations := m))
    ensures References(t) ==> References(t.(allocations := m))
  {
  }

  lemma DefaultsAfterSetOwner(t: Tables, ids: set<Id>, owner: Option<Id>, clear: bool)
    requires DefaultsOwned(t)
    ensures DefaultsOwned(t.(allocations := SetOwner(t.allocations, ids, owner, clear)))
      <==> (forall s | s in t.servers && t.servers[s].allocation in ids :: owner == Some(s))
  {
    var t' := t.(allocations := SetOwner(t.allocations, ids, owner, clear));
    if DefaultsOwned(t') {
      forall s | s in t.servers && t.servers[s].allocation in ids
        ensures owner == Some(s)
      {
        assert t'.servers[s].allocation in Owned(t', s);
      }
    }
    if forall s | s in t.servers && t.servers[s].allocation in ids :: owner == Some(s) {
      forall s | s in t.servers
        ensures t.servers[s].allocation in Owned(t', s)
      {
        assert t.servers[s].allocation in Owned(t, s);
      }
    }
  }

  /** Assigning unassigned rows to a server never takes a default away. */
  lemma AssignUnassignedKeepsInv(t: Tables, ids: set<Id>, server: Id, clear: bool)
    requires Inv(t) && server in t.servers && forall a | a in ids :: Unassigned(t, a)
    ensures Inv(t.(allocations := SetOwner(t.allocations, ids, Some(server), clear)))
    ensures Owned(t.(allocations := SetOwner(t.allocations, ids, Some(server), clear)), server) == Owned(t, server) + ids
  {
    forall s | s in t.servers
      ensures t.servers[s].allocation !in ids
    {
      assert t.servers[s].allocation in Owned(t, s);
    }
    SetOwnerKeepsInvIff(t, ids, Some(server), clear);
  }

  // ---------------------------------------------------------------------
  // The database
  // ---------------------------------------------------------------------

  class Panel {
    var allocations: map<Id, Allocation>
    var servers: map<Id, Server>
    var transfers: map<Id, Transfer>
    var variables: map<(Id, Id), string>
    var databases: map<Id, Id>
    var lastAllocation: Id
    var lastServer: Id
    var lastTransfer: Id

    function View(): Tables
      reads this
    {
      Tables(allocations, servers, transfers, variables, databases)
    }

    /** Identifiers are handed out in ascending order. */
    ghost predicate Numbered()
      reads this
    {
      && (forall a | a in allocations :: a <= lastAllocation)
      && (forall s | s in servers :: s <= lastServer)
      && (forall x | x in transfers :: x <= lastTransfer)
    }

    ghost predicate Valid()
      reads this
    {
      Numbered() && Inv(View())
    }

    constructor ()
      ensures Valid() && View() == Tables(map[], map[], map[], map[], map[])
    {
      allocations, servers, transfers, variables, databases := map[], map[], map[], map[], map[];
      lastAllocation, lastServer, lastTransfer := 0, 0, 0;
    }

    /** The end of a transaction that failed; identifiers already handed out stay used. */
    method Rollback(saved: Tables)
      modifies this`allocations, this`servers, this`transfers, this`variables, this`databases
      ensures View() == saved
    {
      allocations, servers, transfers := saved.allocations, saved.servers, saved.transfers;
      variables, databases := saved.variables, saved.databases;
    }

    /**
      A release through the model: the `updating` hook vetoes it for the default
      allocation of the owner, without an exception.
    */
    method Release(a: Id) returns (saved: bool)
      requires Valid() && a in allocations
      modifies this`allocations
      ensures Valid()
      ensures saved <==> !IsDefault(old(View()), a)
      ensures View() == (if saved then Released(old(View()), a) else old(View()))
      ensures saved ==> allocations == old(allocations)[a := old(allocations)[a].(owner := None, notes := None)]
    {
      var row := allocations[a];
      if row.owner.Some? {
        if row.owner.value in servers && servers[row.owner.value].allocation == a {
          return false;
        }
      }
      ReleaseKeepsInvIff(View(), a);
      assert !IsDefault(View(), a) by {
        forall s | s in servers
          ensures servers[s].allocation != a
        {
          assert servers[s].allocation in Owned(View(), s);
        }
      }
      allocations := SetOwner(allocations, {a}, None, true);
      return true;
    }

    /** The `deleting` hook refuses allocations in use. */
    method DeleteAllocation(a: Id) returns (deleted: bool)
      requires Valid() && a in allocations
      modifies this`allocations
      ensures Valid()
      ensures deleted <==> old(allocations)[a].owner == None
      ensures allocations == if deleted then old(allocations) - {a} else old(allocations)
      ensures View() == (if deleted then WithoutAllocation(old(View()), a) else old(View()))
    {
      if allocations[a].owner.Some? {
        return false;
      }
      DeleteKeepsInv(View(), a);
      allocations := allocations - {a};
      return true;
    }
  }

  function Released(t: Tables, a: Id): Tables {
    t.(allocations := SetOwner(t.allocations, {a}, None, true))
  }

  function WithoutAllocation(t: Tables, a: Id): Tables {
    t.(allocations := t.allocations - {a})
  }

  /** The veto is needed exactly for default allocations. */
  lemma ReleaseKeepsInvIff(t: Tables, a: Id)
    requires Inv(t)
    ensures Inv(Released(t, a)) <==> !IsDefault(t, a)
  {
    SetOwnerKeepsInvIff(t, {a}, None, true);
  }

  lemma DeleteKeepsInv(t: Tables, a: Id)
    requires Inv(t) && Unassigned(t, a)
    ensures Inv(WithoutAllocation(t, a))
  {
    var t' := WithoutAllocation(t, a);
    forall s | s in t.servers
      ensures t.servers[s].allocation in Owned(t', s)
    {
      assert t.servers[s].allocation in Owned(t, s);
    }
  }
}
