/**
  The build modification of a server: allocations to add, allocations to remove
  and a new default, in one request (app/Services/Servers/BuildModificationService.php).
*/
module Build {
  import opened Wrappers
  import opened Database

  datatype Request = Request(add: seq<Id>, remove: seq<Id>, default: Option<Id>)

  datatype Error = NoFallback | NotAssigned

  // ---------------------------------------------------------------------
  // What a request means
  // ---------------------------------------------------------------------

  predicate SameNode(t: Tables, s: Id, a: Id)
    requires s in t.servers
  {
    a in t.allocations && t.allocations[a].node == t.servers[s].node
  }

  function Addable(t: Tables, s: Id, q: Request): set<Id>
    requires s in t.servers
  {
    set a | a in t.allocations && a in q.add && SameNode(t, s, a) && t.allocations[a].owner == None
  }

  /** On the server's node and removed, but not also added. */
  function Dropped(t: Tables, s: Id, q: Request): set<Id>
    requires s in t.servers
  {
    set a | a in t.allocations && a in q.remove && a !in q.add && SameNode(t, s, a)
  }

  /** What the server owns afterwards. */
  function OwnedAfter(t: Tables, s: Id, q: Request): set<Id>
    requires s in t.servers
  {
    (Owned(t, s) + Addable(t, s, q)) - Dropped(t, s, q)
  }

  /** The default allocation asked for; without one, the present default stays. */
  function Wanted(t: Tables, s: Id, q: Request): Id
    requires s in t.servers
  {
    q.default.GetOr(t.servers[s].allocation)
  }

  predicate Accepts(t: Tables, s: Id, q: Request)
    requires s in t.servers
  {
    if Wanted(t, s, q) in q.remove then Addable(t, s, q) != {}
    else Wanted(t, s, q) == t.servers[s].allocation || Wanted(t, s, q) in OwnedAfter(t, s, q)
  }

  /** The defaults that an accepted request may leave. */
  function Defaults(t: Tables, s: Id, q: Request): set<Id>
    requires s in t.servers
  {
    if Wanted(t, s, q) in q.remove then Addable(t, s, q) else {Wanted(t, s, q)}
  }

  function WithAdded(t: Tables, s: Id, q: Request): Tables
    requires s in t.servers
  {
    t.(allocations := SetOwner(t.allocations, Addable(t, s, q), Some(s), true))
  }

  /** The second update also asks for the owner, which the first one may have set. */
  function WithRemoved(t: Tables, s: Id, q: Request): Tables
    requires s in t.servers
  {
    t.(allocations := SetOwner(t.allocations, Owned(t, s) * Dropped(t, s, q), None, true))
  }

  function WithDefault(t: Tables, s: Id, a: Id): Tables
    requires s in t.servers
  {
    t.(servers := t.servers[s := t.servers[s].(allocation := a)])
  }

  function Built(t: Tables, s: Id, q: Request, default: Id): Tables
    requires s in t.servers
  {
    WithDefault(WithRemoved(WithAdded(t, s, q), s, q), s, default)
  }

  // ---------------------------------------------------------------------
  // What the request does to every row
  // ---------------------------------------------------------------------

  /** Row by row: added, dropped, or as it was. */
  ghost predicate RowsAfter(t: Tables, s: Id, q: Request, m: map<Id, Allocation>)
    requires s in t.servers
  {
    && m.Keys == t.allocations.Keys
    && (forall a | a in Addable(t, s, q) :: m[a] == t.allocations[a].(owner := Some(s), notes := None))
    && (forall a | a in Owned(t, s) * Dropped(t, s, q) :: m[a] == t.allocations[a].(owner := None, notes := None))
    && (forall a | a in t.allocations && a !in Addable(t, s, q) && a !in Owned(t, s) * Dropped(t, s, q) ::
          m[a] == t.allocations[a])
  }

  lemma EveryRowAfter(t: Tables, s: Id, q: Request)
    requires s in t.servers
    ensures RowsAfter(t, s, q, WithRemoved(WithAdded(t, s, q), s, q).allocations)
  {
    var t1 := WithAdded(t, s, q);
    assert Addable(t, s, q) !! Dropped(t, s, q);
    assert Dropped(t1, s, q) == Dropped(t, s, q);
    assert Owned(t1, s) == Owned(t, s) + Addable(t, s, q);
  }

  lemma OwnedFromRows(t: Tables, s: Id, q: Request, t': Tables)
    requires s in t.servers && RowsAfter(t, s, q, t'.allocations)
    ensures Owned(t', s) == OwnedAfter(t, s, q)
    ensures forall r | r != s :: Owned(t', r) == Owned(t, r)
  {
    var m := t'.allocations;
    forall a | a in t.allocations
      ensures a in Owned(t', s) <==> a in OwnedAfter(t, s, q)
    {
      assert a in Addable(t, s, q) ==> a !in Dropped(t, s, q);
    }
    forall r | r != s
      ensures Owned(t', r) == Owned(t, r)
    {
      assert forall a | a in t.allocations :: m[a].owner == Some(r) <==> t.allocations[a].owner == Some(r);
    }
  }

  /** The ownership of every server after a request. */
  lemma OwnershipAfter(t: Tables, s: Id, q: Request, default: Id)
    requires s in t.servers
    ensures Owned(Built(t, s, q, default), s) == OwnedAfter(t, s, q)
    ensures forall r | r != s :: Owned(Built(t, s, q, default), r) == Owned(t, r)
  {
    EveryRowAfter(t, s, q);
    OwnedFromRows(t, s, q, Built(t, s, q, default));
  }

  /**
    Who owns an allocation after a request, in the columns of the tables: what is
    free on the server's node and asked for is gained, what is on that node and
    only to be removed is lost; both lose their notes, and no other row changes.
  */
  lemma GainedAndLostIff(t: Tables, s: Id, q: Request, default: Id, a: Id)
    requires s in t.servers
    ensures var t', node := Built(t, s, q, default), t.servers[s].node;
      && t'.allocations.Keys == t.allocations.Keys
      && (a in Owned(t', s) - Owned(t, s) <==>
        a in t.allocations && a in q.add && t.allocations[a].owner == None && t.allocations[a].node == node)
      && (a in Owned(t, s) - Owned(t', s) <==>
        a in Owned(t, s) && a in q.remove && a !in q.add && t.allocations[a].node == node)
      && (a in Owned(t', s) - Owned(t, s) ==> t'.allocations[a] == t.allocations[a].(owner := Some(s), notes := None))
      && (a in Owned(t, s) - Owned(t', s) ==> t'.allocations[a] == t.allocations[a].(owner := None, notes := None))
      && (a in t.allocations && (a in Owned(t, s) <==> a in Owned(t', s)) ==> t'.allocations[a] == t.allocations[a])
  {
    EveryRowAfter(t, s, q);
    OwnershipAfter(t, s, q, default);
  }

  /**
    Which default an accepted request leaves: the one asked for, or the present
    one; if that is to be removed, one of the allocations gained. The server
    changes in nothing else, and no other server changes.
  */
  lemma DefaultAfter(t: Tables, s: Id, q: Request, default: Id)
    requires s in t.servers && Accepts(t, s, q) && default in Defaults(t, s, q)
    ensures var t' := Built(t, s, q, default);
      var wanted := if q.default.Some? then q.default.value else t.servers[s].allocation;
      && t'.servers == t.servers[s := t.servers[s].(allocation := default)]
      && (wanted !in q.remove ==> default == wanted)
      && (wanted in q.remove ==> default in Owned(t', s) - Owned(t, s))
      && t' == t.(allocations := t'.allocations, servers := t'.servers)
  {
    GainedAndLostIff(t, s, q, default, default);
  }

  /** The order of the two lists, and repetitions in them, do not matter. */
  lemma OnlyTheSetsMatter(t: Tables, s: Id, q: Request, q': Request, default: Id)
    requires s in t.servers && q.default == q'.default
    requires (forall a :: a in q.add <==> a in q'.add) && (forall a :: a in q.remove <==> a in q'.remove)
    ensures Accepts(t, s, q) <==> Accepts(t, s, q')
    ensures Defaults(t, s, q) == Defaults(t, s, q')
    ensures Built(t, s, q, default) == Built(t, s, q', default)
  {
    assert Addable(t, s, q) == Addable(t, s, q') && Dropped(t, s, q) == Dropped(t, s, q');
    var t1 := WithAdded(t, s, q);
    assert Dropped(t1, s, q) == Dropped(t1, s, q');
  }

  // ---------------------------------------------------------------------
  // The invariant
  // ---------------------------------------------------------------------

  lemma KeysAndOwnersAfter(t: Tables, s: Id, q: Request, default: Id)
    requires Inv(t) && s in t.servers
    ensures UniqueKeys(Built(t, s, q, default).allocations) && OwnersExist(Built(t, s, q, default))
  {
    var t1 := WithAdded(t, s, q);
    AssignUnassignedKeepsInv(t, Addable(t, s, q), s, true);
    SetOwnerKeepsKeys(t1.allocations, Owned(t1, s) * Dropped(t1, s, q), None, true);
    OwnersAfterSetOwner(t1, Owned(t1, s) * Dropped(t1, s, q), None, true);
    assert OwnersExist(WithDefault(WithRemoved(t1, s, q), s, default));
  }

  /** Of all defaults, exactly those that the server owns afterwards keep the invariant. */
  lemma DefaultKeepsInvIff(t: Tables, s: Id, q: Request, default: Id)
    requires Inv(t) && s in t.servers
    ensures Inv(Built(t, s, q, default)) <==> default in OwnedAfter(t, s, q)
  {
    var t' := Built(t, s, q, default);
    KeysAndOwnersAfter(t, s, q, default);
    OwnershipAfter(t, s, q, default);
    assert References(t') && OneOpenTransfer(t');
    if default in OwnedAfter(t, s, q) {
      forall r | r in t'.servers
        ensures t'.servers[r].allocation in Owned(t', r)
      {
        if r != s {
          assert t.servers[r].allocation in Owned(t, r);
        }
      }
    }
    if Inv(t') {
      assert t'.servers[s].allocation in Owned(t', s);
    }
  }

  /** The checks refuse nothing but requests that leave the server without a default it owns. */
  lemma AcceptsIffADefaultIsOwned(t: Tables, s: Id, q: Request)
    requires Inv(t) && s in t.servers
    ensures Accepts(t, s, q) <==> exists d :: d in Defaults(t, s, q) && d in OwnedAfter(t, s, q)
    ensures Accepts(t, s, q) ==> forall d | d in Defaults(t, s, q) :: d in OwnedAfter(t, s, q)
  {
    assert t.servers[s].allocation in Owned(t, s);
    if Wanted(t, s, q) in q.remove {
      assert forall d | d in Addable(t, s, q) :: d in OwnedAfter(t, s, q);
      if Addable(t, s, q) != {} {
        var d :| d in Addable(t, s, q);
      }
    } else {
      assert Wanted(t, s, q) in Defaults(t, s, q);
      assert Wanted(t, s, q) == t.servers[s].allocation ==> Wanted(t, s, q) in OwnedAfter(t, s, q);
    }
  }

  /**
    A request is accepted exactly when some default keeps the tables consistent:
    the wanted one, or, if that is to be removed, an allocation gained.
  */
  lemma AcceptsIffPossible(t: Tables, s: Id, q: Request)
    requires Inv(t) && s in t.servers
    ensures var wanted := if q.default.Some? then q.default.value else t.servers[s].allocation;
      Accepts(t, s, q) <==> exists d ::
        Inv(Built(t, s, q, d))
        && if wanted in q.remove then d in Owned(Built(t, s, q, d), s) - Owned(t, s) else d == wanted
  {
    AcceptsIffADefaultIsOwned(t, s, q);
    if Accepts(t, s, q) {
      var d :| d in Defaults(t, s, q) && d in OwnedAfter(t, s, q);
      DefaultKeepsInvIff(t, s, q, d);
      DefaultAfter(t, s, q, d);
    }
    forall d | Inv(Built(t, s, q, d))
      ensures d in OwnedAfter(t, s, q)
      ensures d in Owned(Built(t, s, q, d), s) - Owned(t, s) ==> d in Addable(t, s, q)
    {
      DefaultKeepsInvIff(t, s, q, d);
      GainedAndLostIff(t, s, q, d, d);
    }
  }

  // ---------------------------------------------------------------------
  // The service
  // ---------------------------------------------------------------------

  /** The default after the loop has seen some of the removed allocations. */
  function Redirected(q: Request, current: Id, fallback: Option<Id>, seen: seq<Id>): Option<Id> {
    if q.default.GetOr(current) in seen then fallback else q.default
  }

  /** The default that the walk leaves in the request. */
  predicate Chosen(t: Tables, s: Id, q: Request, chosen: Option<Id>)
    requires s in t.servers
  {
    if Wanted(t, s, q) in q.remove then chosen.Some? && chosen.value in Addable(t, s, q) else chosen == q.default
  }

  /** The later check on the chosen default is right: it passes exactly for requests to accept. */
  lemma ChosenIsRight(t: Tables, s: Id, q: Request, chosen: Option<Id>, final: Id)
    requires Inv(t) && s in t.servers && Chosen(t, s, q, chosen) && final == chosen.GetOr(t.servers[s].allocation)
    ensures final in Defaults(t, s, q)
    ensures Accepts(t, s, q) <==> final in Owned(WithRemoved(WithAdded(t, s, q), s, q), s)
    ensures Accepts(t, s, q) <==> Inv(Built(t, s, q, final))
    ensures final == t.servers[s].allocation ==> Accepts(t, s, q)
    ensures !Accepts(t, s, q) ==> Wanted(t, s, q) !in q.remove
  {
    AcceptsIffADefaultIsOwned(t, s, q);
    EveryRowAfter(t, s, q);
    OwnedFromRows(t, s, q, WithRemoved(WithAdded(t, s, q), s, q));
    DefaultKeepsInvIff(t, s, q, final);
  }

  /** `processAllocations`: rewrites the requested default while it walks the removals. */
  method ProcessAllocations(db: Panel, s: Id, q: Request) returns (r: Result<Option<Id>, Error>)
    requires s in db.servers
    modifies db`allocations
    ensures r.Failure? <==>
      Wanted(old(db.View()), s, q) in q.remove && Addable(old(db.View()), s, q) == {}
    ensures r.Failure? ==> r.error == NoFallback
    ensures r.Success? ==> db.View() == WithRemoved(WithAdded(old(db.View()), s, q), s, q)
    ensures r.Success? ==> Chosen(old(db.View()), s, q, r.value)
  {
    ghost var t := db.View();
    var server := db.servers[s];
    if q.add == [] && q.remove == [] {
      assert Addable(t, s, q) == {} && Dropped(t, s, q) == {};
      assert WithAdded(t, s, q).allocations == t.allocations;
      assert WithRemoved(t, s, q).allocations == t.allocations;
      return Success(q.default);
    }
    var fallback: Option<Id> := None;
    if q.add != [] {
      var query := set a | a in db.allocations && a in q.add
        && db.allocations[a].node == server.node && db.allocations[a].owner == None;
      assert query == Addable(t, s, q);
      if query != {} {
        var first :| first in query;
        fallback := Some(first);
      }
      db.allocations := SetOwner(db.allocations, query, Some(s), true);
    } else {
      assert Addable(t, s, q) == {} && WithAdded(t, s, q).allocations == t.allocations;
    }
    assert db.View() == WithAdded(t, s, q);
    var default := q.default;
    if q.remove != [] {
      for i := 0 to |q.remove|
        invariant default == Redirected(q, server.allocation, fallback, q.remove[..i])
        invariant Wanted(t, s, q) in q.remove[..i] ==> fallback.Some?
        invariant db.View() == WithAdded(t, s, q)
      {
        assert q.remove[..i + 1] == q.remove[..i] + [q.remove[i]];
        if q.remove[i] == default.GetOr(server.allocation) {
          if fallback.None? {
            return Failure(NoFallback);
          }
          default := fallback;
        }
      }
      assert q.remove[..|q.remove|] == q.remove;
      var mine := set a | a in db.allocations && db.allocations[a].node == server.node
        && db.allocations[a].owner == Some(s) && a in q.remove && a !in q.add;
      assert mine == Owned(db.View(), s) * Dropped(db.View(), s, q);
      db.allocations := SetOwner(db.allocations, mine, None, true);
    } else {
      var t1 := db.View();
      assert Dropped(t1, s, q) == {} && WithRemoved(t1, s, q).allocations == t1.allocations;
    }
    return Success(default);
  }

  /** The whole request: everything or nothing. */
  method Handle(db: Panel, s: Id, q: Request) returns (r: Result<Id, Error>)
    requires db.Valid() && s in db.servers
    modifies db
    ensures db.Valid()
    ensures r.Success? <==> Accepts(old(db.View()), s, q)
    ensures r.Success? ==>
      r.value in Defaults(old(db.View()), s, q) && db.View() == Built(old(db.View()), s, q, r.value)
    ensures r.Failure? ==> db.View() == old(db.View())
    ensures r.Failure? ==> (r.error == NoFallback <==> Wanted(old(db.View()), s, q) in q.remove)
  {
    var saved := db.View();
    var processed := ProcessAllocations(db, s, q);
    if processed.Failure? {
      db.Rollback(saved);
      return Failure(processed.error);
    }
    var default := processed.value;
    var final := default.GetOr(db.servers[s].allocation);
    ChosenIsRight(saved, s, q, default, final);
    if default.Some? && default.value != db.servers[s].allocation {
      if default.value !in db.allocations || db.allocations[default.value].owner != Some(s) {
        db.Rollback(saved);
        return Failure(NotAssigned);
      }
    }
    SaveDefault(db, saved, s, q, final);
    return Success(final);
  }

  /** The end of the transaction. */
  method SaveDefault(db: Panel, ghost t: Tables, s: Id, q: Request, final: Id)
    requires s in t.servers && db.View() == WithRemoved(WithAdded(t, s, q), s, q)
    requires Inv(Built(t, s, q, final)) && db.Numbered()
    modifies db`servers
    ensures db.Valid() && db.View() == Built(t, s, q, final)
  {
    db.servers := db.servers[s := db.servers[s].(allocation := final)];
  }
}
