/** The deletion of a server and of everything that belongs to it (app/Services/Servers/ServerDeletionService.php). */
module Deletion {
  import opened Wrappers
  import opened Database

  /** The answer of the daemon to the deletion of a server. */
  datatype DaemonReply = Done | Unreachable(notFound: bool) | OtherFailure

  datatype Error = DaemonUnreachable | DatabaseNotDropped

  /** A server removed: its rows released, its databases gone, the rest by cascade. */
  function Deleted(t: Tables, s: Id): Tables {
    Tables(
      SetOwner(t.allocations, Owned(t, s), None, false),
      t.servers - {s},
      map x | x in t.transfers && t.transfers[x].server != s :: t.transfers[x],
      map v | v in t.variables && v.0 != s :: t.variables[v],
      map d | d in t.databases && t.databases[d] != s :: t.databases[d])
  }

  lemma DeletedAllocations(t: Tables, s: Id)
    requires Inv(t)
    ensures UniqueKeys(Deleted(t, s).allocations) && OwnersExist(Deleted(t, s)) && DefaultsOwned(Deleted(t, s))
  {
    var t' := Deleted(t, s);
    SetOwnerKeepsKeys(t.allocations, Owned(t, s), None, false);
    assert forall a | a in t.allocations ::
      t'.allocations[a].owner == if t.allocations[a].owner == Some(s) then None else t.allocations[a].owner;
    forall r | r in t'.servers
      ensures t'.servers[r].allocation in Owned(t', r)
    {
      assert t.servers[r].allocation in Owned(t, r);
    }
  }

  /** A deletion keeps the invariant and leaves nothing of the server. */
  lemma DeletionKeepsInv(t: Tables, s: Id)
    requires Inv(t)
    ensures Inv(Deleted(t, s)) && NothingOf(Deleted(t, s), s)
  {
    DeletedAllocations(t, s);
    NothingLeft(t, s);
  }

  /** No row of any table mentions the server. */
  ghost predicate NothingOf(t: Tables, s: Id) {
    && s !in t.servers && Owned(t, s) == {} && (forall x | x in t.transfers :: t.transfers[x].server != s)
    && (forall v | v in t.variables :: v.0 != s) && (forall d | d in t.databases :: t.databases[d] != s)
  }

  lemma NothingLeft(t: Tables, s: Id)
    ensures NothingOf(Deleted(t, s), s)
  {
  }

  /** The other servers keep what they have. */
  lemma OthersUntouched(t: Tables, s: Id, r: Id)
    requires r != s
    ensures Owned(Deleted(t, s), r) == Owned(t, r)
    ensures OpenTransfers(Deleted(t, s), r) == OpenTransfers(t, r)
    ensures r in t.servers ==> r in Deleted(t, s).servers && Deleted(t, s).servers[r] == t.servers[r]
  {
    var t' := Deleted(t, s);
    assert forall a | a in t.allocations :: t'.allocations[a].owner == Some(r) <==> t.allocations[a].owner == Some(r);
  }

  /** What belongs to no other server than this one goes, or is free; every other row of every table stays as it is. */
  lemma OnlyTheServerGoes(t: Tables, s: Id)
    ensures var t' := Deleted(t, s);
      && t'.servers == t.servers - {s} && t'.allocations.Keys == t.allocations.Keys
      && (forall a | a in t.allocations && t.allocations[a].owner == Some(s) ::
        t'.allocations[a] == t.allocations[a].(owner := None))
      && (forall a | a in t.allocations && t.allocations[a].owner != Some(s) :: t'.allocations[a] == t.allocations[a])
      && (forall x | x in t.transfers && t.transfers[x].server != s :: x in t'.transfers && t'.transfers[x] == t.transfers[x])
      && (forall v | v in t.variables && v.0 != s :: v in t'.variables && t'.variables[v] == t.variables[v])
      && (forall d | d in t.databases && t.databases[d] != s :: d in t'.databases && t'.databases[d] == t.databases[d])
      && NothingOf(t', s)
  {
    NothingLeft(t, s);
  }

  function DatabasesOf(t: Tables, s: Id): set<Id> {
    set d | d in t.databases && t.databases[d] == s
  }

  function WithoutDatabases(t: Tables, s: Id): Tables {
    t.(databases := map d | d in t.databases && t.databases[d] != s :: t.databases[d])
  }

  /** Dropping the databases first makes no difference. */
  lemma SameWithoutDatabases(t: Tables, s: Id)
    ensures Deleted(WithoutDatabases(t, s), s) == Deleted(t, s)
  {
    assert Owned(WithoutDatabases(t, s), s) == Owned(t, s);
    assert Deleted(WithoutDatabases(t, s), s).databases == Deleted(t, s).databases;
  }

  class ServerDeletionService {
    var force: bool

    constructor ()
      ensures !force
    {
      force := false;
    }

    method WithForce(value: bool)
      modifies this`force
      ensures force == value
    {
      force := value;
    }

    /** `dropped` are the databases that their hosts manage to drop. */
    method Handle(db: Panel, s: Id, reply: DaemonReply, dropped: set<Id>) returns (r: Result<(), Error>)
      requires db.Numbered() && s in db.servers
      modifies db
      ensures db.Numbered() && (old(db.Valid()) ==> db.Valid())
      ensures r == Failure(DaemonUnreachable) <==> reply == Unreachable(false) && !force
      ensures r == Failure(DatabaseNotDropped) <==> (!(reply == Unreachable(false)) && !force
        && exists d :: d in old(db.databases) && old(db.databases)[d] == s && d !in dropped)
      ensures force ==> r.Success?
      ensures db.View() == if r.Success? then Deleted(old(db.View()), s) else old(db.View())
    {
      if reply.Unreachable? && !force && !reply.notFound {
        return Failure(DaemonUnreachable);
      }
      ghost var t := db.View();
      if Inv(t) {
        DeletionKeepsInv(t, s);
      }
      var ok := Transaction(db, s, dropped);
      return if ok then Success(()) else Failure(DatabaseNotDropped);
    }

    method Transaction(db: Panel, s: Id, dropped: set<Id>) returns (ok: bool)
      requires db.Numbered() && s in db.servers
      modifies db
      ensures db.Numbered()
      ensures ok <==> force || forall d | d in old(db.databases) && old(db.databases)[d] == s :: d in dropped
      ensures db.View() == if ok then Deleted(old(db.View()), s) else old(db.View())
    {
      var saved := db.View();
      ok := DropDatabases(db, s, dropped);
      if !ok {
        db.Rollback(saved);
        return;
      }
      assert DatabasesOf(db.View(), s) == {};
      SameWithoutDatabases(saved, s);
      DeleteRows(db, s);
    }

    /** The loop over the databases: a failure stops it, unless the deletion is forced. */
    method DropDatabases(db: Panel, s: Id, dropped: set<Id>) returns (ok: bool)
      modifies db`databases
      ensures ok <==> force || forall d | d in old(db.databases) && old(db.databases)[d] == s :: d in dropped
      ensures ok ==> db.View() == WithoutDatabases(old(db.View()), s)
    {
      ghost var all := DatabasesOf(db.View(), s);
      var todo := set d | d in db.databases && db.databases[d] == s;
      ghost var done: set<Id> := {};
      while todo != {}
        invariant done + todo == all && done !! todo
        invariant force || done <= dropped
        invariant db.databases == map d | d in old(db.databases) && d !in done :: old(db.databases)[d]
        decreases todo
      {
        var d :| d in todo;
        if d !in dropped && !force {
          return false;
        }
        db.databases := db.databases - {d};
        todo := todo - {d};
        done := done + {d};
      }
      return true;
    }

    /** The allocations, then the server; its transfers and variables follow by cascade. */
    method DeleteRows(db: Panel, s: Id)
      requires db.Numbered() && s in db.servers && DatabasesOf(db.View(), s) == {}
      modifies db`allocations, db`servers, db`transfers, db`variables
      ensures db.Numbered()
      ensures db.View() == Deleted(old(db.View()), s)
    {
      var mine := set a | a in db.allocations && db.allocations[a].owner == Some(s);
      assert mine == Owned(db.View(), s);
      assert db.databases == map d | d in db.databases && db.databases[d] != s :: db.databases[d] by {
        assert forall d | d in db.databases :: d !in DatabasesOf(db.View(), s);
      }
      db.allocations := SetOwner(db.allocations, mine, None, false);
      db.servers := db.servers - {s};
      db.transfers := map x | x in db.transfers && db.transfers[x].server != s :: db.transfers[x];
      db.variables := map v | v in db.variables && v.0 != s :: db.variables[v];
    }
  }
}
