/**
  Subusers: people an owner lets work on a server, each with a list of
  permissions (app/Services/Subusers/, app/Services/Servers/DetailsModificationService.php
  and the `saved` hook of app/Models/Server.php).
*/
module Subusers {
  import opened Wrappers
  import opened FiniteSets
  import opened SortedStrings

  type Id = nat
  type Email = string
  type Permission = string

  const CONNECT: Permission := "websocket.connect"

  datatype Subuser = Subuser(user: Id, server: Id, permissions: seq<Permission>)

  /** Users by e-mail address, the owners of the servers, and the table of subusers. */
  datatype State = State(users: map<Email, Id>, owners: map<Id, Id>, subusers: map<Id, Subuser>)

  /** Who acts, and what their roles allow: everything for a root administrator. */
  datatype Actor = Actor(user: Id, root: bool, roles: set<Permission>)

  const UPDATE: Permission := "update server"
  const VIEW: Permission := "view server"
  const DELETE: Permission := "delete server"

  predicate Matches(st: State, i: Id, server: Id, user: Id) {
    i in st.subusers && st.subusers[i].server == server && st.subusers[i].user == user
  }

  function MatchesOf(st: State, server: Id, user: Id): set<Id> {
    set i | i in st.subusers && Matches(st, i, server, user)
  }

  predicate Holds(st: State, user: Id, server: Id, p: Permission) {
    exists i | i in st.subusers :: Matches(st, i, server, user) && p in st.subusers[i].permissions
  }

  predicate RoleAllows(actor: Actor, p: Permission) {
    actor.root || p in actor.roles
  }

  /** The gate before any method of the policy: roles, then the owner, then the stored permissions. */
  predicate Before(st: State, actor: Actor, server: Id, p: Permission)
    requires server in st.owners
  {
    RoleAllows(actor, p) || st.owners[server] == actor.user || Holds(st, actor.user, server, p)
  }

  /** Abilities that are methods of the policy, and what these methods ask about the server. */
  function Asks(p: Permission): set<Permission> {
    if p == "view" then {VIEW} else if p == "update" then {UPDATE} else if p == "delete" then {DELETE} else {}
  }

  /** What other methods of the policy ask about the user alone. */
  function AsksRoles(p: Permission): set<Permission> {
    if p == "viewAny" then {"viewList server"}
    else if p in {"create", "replicate"} then {"create server"}
    else if p == "deleteAny" then {DELETE}
    else {}
  }

  /** The gate with the policy of servers. */
  predicate Gate(st: State, actor: Actor, server: Id, p: Permission)
    requires server in st.owners
  {
    || Before(st, actor, server, p)
    || (exists q | q in Asks(p) :: Before(st, actor, server, q))
    || (exists q | q in AsksRoles(p) :: RoleAllows(actor, q))
  }

  predicate FullAccess(st: State, actor: Actor, server: Id)
    requires server in st.owners
  {
    Gate(st, actor, server, UPDATE) || st.owners[server] == actor.user
  }

  /** `User::can`: permissions of the catalogue are checked here, all others by the gate. */
  predicate Can(st: State, catalogue: set<Permission>, actor: Actor, server: Id, p: Permission)
    requires server in st.owners
  {
    if p in catalogue then
      || FullAccess(st, actor, server)
      || (p == CONNECT && Gate(st, actor, server, VIEW))
      || Holds(st, actor.user, server, p)
    else Gate(st, actor, server, p)
  }

  /** The permissions of a list that the actor may hand out. */
  function Grantable(st: State, catalogue: set<Permission>, actor: Actor, server: Id, asked: seq<Permission>): set<Permission>
    requires server in st.owners
  {
    set p | p in asked && (p == CONNECT || Can(st, catalogue, actor, server, p))
  }

  function Granted(st: State, catalogue: set<Permission>, actor: Actor, server: Id, asked: seq<Permission>): seq<Permission>
    requires server in st.owners
  {
    Cleaned(asked, Grantable(st, catalogue, actor, server, asked))
  }

  ghost predicate UniqueRows(st: State) {
    forall i, j | i in st.subusers && j in st.subusers
      && st.subusers[i].user == st.subusers[j].user && st.subusers[i].server == st.subusers[j].server :: i == j
  }

  ghost predicate NoOwnerIsSubuser(st: State) {
    forall i | i in st.subusers ::
      st.subusers[i].server in st.owners && st.owners[st.subusers[i].server] != st.subusers[i].user
  }

  ghost predicate Inv(st: State) {
    && UniqueRows(st) && NoOwnerIsSubuser(st)
    && (forall i | i in st.subusers :: Canonical(st.subusers[i].permissions))
    && (forall i | i in st.subusers :: st.subusers[i].user in st.users.Values)
    && (forall s | s in st.owners :: st.owners[s] in st.users.Values)
  }

  // ---------------------------------------------------------------------
  // The operations
  // ---------------------------------------------------------------------

  datatype Error = UserIsOwner | SubuserExists

  function UserFor(st: State, email: Email, newUser: Id): Id {
    if email in st.users then st.users[email] else newUser
  }

  function Created(st: State, catalogue: set<Permission>, server: Id, email: Email, asked: seq<Permission>,
      actor: Actor, newUser: Id, id: Id): (Result<Id, Error>, State)
    requires server in st.owners
  {
    var user := UserFor(st, email, newUser);
    if st.owners[server] == user then (Failure(UserIsOwner), st)
    else if MatchesOf(st, server, user) != {} then (Failure(SubuserExists), st)
    else (Success(id), State(st.users[email := user], st.owners,
      st.subusers[id := Subuser(user, server, Granted(st, catalogue, actor, server, asked))]))
  }

  function Updated(st: State, catalogue: set<Permission>, i: Id, asked: seq<Permission>, actor: Actor): State
    requires i in st.subusers && st.subusers[i].server in st.owners
  {
    st.(subusers := st.subusers[i := st.subusers[i].(
      permissions := Granted(st, catalogue, actor, st.subusers[i].server, asked))])
  }

  function Removed(st: State, i: Id): State {
    st.(subusers := st.subusers - {i})
  }

  /** `first` is the row that the `saved` hook finds for the new owner, if there is one. */
  predicate HookFinds(st: State, server: Id, owner: Id, first: Option<Id>) {
    match first
    case None => MatchesOf(st, server, owner) == {}
    case Some(i) => Matches(st, i, server, owner)
  }

  function OwnerChanged(st: State, server: Id, owner: Id, first: Option<Id>): State {
    var changed := st.(owners := st.owners[server := owner]);
    match first
    case None => changed
    case Some(i) => Removed(changed, i)
  }

  class SubuserStore {
    const catalogue: set<Permission>
    var users: map<Email, Id>
    var owners: map<Id, Id>
    var subusers: map<Id, Subuser>
    var lastUser: Id
    var lastSubuser: Id

    function View(): State
      reads this
    {
      State(users, owners, subusers)
    }

    ghost predicate Valid()
      reads this
    {
      && Inv(View())
      && (forall e | e in users :: users[e] <= lastUser)
      && (forall i | i in subusers :: i <= lastSubuser)
    }

    constructor (catalogue: set<Permission>, users: map<Email, Id>, owners: map<Id, Id>, lastUser: Id)
      requires forall s | s in owners :: owners[s] in users.Values
      requires forall e | e in users :: users[e] <= lastUser
      ensures Valid() && this.catalogue == catalogue && View() == State(users, owners, map[])
    {
      this.catalogue, this.users, this.owners, this.subusers := catalogue, users, owners, map[];
      this.lastUser, this.lastSubuser := lastUser, 0;
    }

    /** `SubuserCreationService`; the user is created when the address is unknown. */
    method Create(server: Id, email: Email, asked: seq<Permission>, actor: Actor)
        returns (r: Result<Id, Error>, ghost newUser: Id)
      requires Valid() && server in owners
      modifies this
      ensures Valid()
      ensures newUser !in old(users).Values && (r.Success? ==> r.value !in old(subusers))
      ensures (r, View()) == Created(old(View()), catalogue, server, email, asked, actor, newUser, old(lastSubuser) + 1)
    {
      ghost var st := View();
      newUser := lastUser + 1;
      var user := if email in users then users[email] else lastUser + 1;
      if owners[server] == user {
        return Failure(UserIsOwner), newUser;
      }
      if MatchesOf(View(), server, user) != {} {
        return Failure(SubuserExists), newUser;
      }
      var cleaned := Granted(View(), catalogue, actor, server, asked);
      if email !in users {
        lastUser := lastUser + 1;
        users := users[email := lastUser];
      }
      lastSubuser := lastSubuser + 1;
      subusers := subusers[lastSubuser := Subuser(user, server, cleaned)];
      assert users == st.users[email := user];
      CreateKeepsInv(st, catalogue, server, email, asked, actor, newUser, lastSubuser);
      return Success(lastSubuser), newUser;
    }

    /** `SubuserUpdateService`: the row is written only when the lists differ. */
    method Update(i: Id, asked: seq<Permission>, actor: Actor) returns (written: bool)
      requires Valid() && i in subusers
      modifies this`subusers
      ensures Valid() && View() == Updated(old(View()), catalogue, i, asked, actor)
      ensures written <==> Elements(subusers[i].permissions) != Elements(old(subusers)[i].permissions)
    {
      ghost var st := View();
      var row := subusers[i];
      var cleaned := Granted(View(), catalogue, actor, row.server, asked);
      var current := Sort(row.permissions);
      StoredIsSorted(row.permissions);
      written := cleaned != current;
      if written {
        subusers := subusers[i := row.(permissions := cleaned)];
      }
      WritesIffSetsDiffer(cleaned, row.permissions);
      assert subusers == Updated(st, catalogue, i, asked, actor).subusers;
      UpdateKeepsInv(st, catalogue, i, asked, actor);
    }

    /** `SubuserDeletionService`; the daemon may fail to revoke tokens without changing the outcome. */
    method Delete(i: Id)
      requires Valid() && i in subusers
      modifies this`subusers
      ensures Valid() && View() == Removed(old(View()), i) && subusers == old(subusers) - {i}
    {
      subusers := subusers - {i};
    }

    /** `DetailsModificationService`, with the `saved` hook of the server. */
    method ChangeOwner(server: Id, owner: Id) returns (ghost first: Option<Id>)
      requires Valid() && server in owners && owner in users.Values
      modifies this
      ensures Valid() && HookFinds(old(View()), server, owner, first)
      ensures View() == OwnerChanged(old(View()), server, owner, first)
      ensures users == old(users) && owners == old(owners)[server := owner]
      ensures forall i :: i in subusers <==>
        i in old(subusers) && !(old(subusers)[i].server == server && old(subusers)[i].user == owner)
      ensures forall i | i in subusers :: subusers[i] == old(subusers)[i]
    {
      ghost var st := View();
      owners := owners[server := owner];
      var found := MatchesOf(View(), server, owner);
      assert found == MatchesOf(st, server, owner);
      first := None;
      if found != {} {
        var i :| i in found;
        first := Some(i);
        subusers := subusers - {i};
      }
      OwnerChangeKeepsInv(st, server, owner, first);
    }
  }

  // ---------------------------------------------------------------------
  // The invariant
  // ---------------------------------------------------------------------

  lemma CreateKeepsInv(st: State, catalogue: set<Permission>, server: Id, email: Email, asked: seq<Permission>,
      actor: Actor, newUser: Id, id: Id)
    requires Inv(st) && server in st.owners && newUser !in st.users.Values && id !in st.subusers
    ensures Inv(Created(st, catalogue, server, email, asked, actor, newUser, id).1)
  {
    var (r, st') := Created(st, catalogue, server, email, asked, actor, newUser, id);
    if r.Success? {
      var user := UserFor(st, email, newUser);
      assert st'.users[email] == user;
      forall x | x in st.users.Values
        ensures x in st'.users.Values
      {
        var e :| e in st.users && st.users[e] == x;
        assert st'.users[e] == x;
      }
      forall i | i in st.subusers
        ensures !(st.subusers[i].user == user && st.subusers[i].server == server)
      {
        assert i !in MatchesOf(st, server, user);
      }
    }
  }

  lemma UpdateKeepsInv(st: State, catalogue: set<Permission>, i: Id, asked: seq<Permission>, actor: Actor)
    requires Inv(st) && i in st.subusers
    ensures Inv(Updated(st, catalogue, i, asked, actor))
  {
    var st' := Updated(st, catalogue, i, asked, actor);
    assert Canonical(st'.subusers[i].permissions);
  }

  lemma OwnerChangeKeepsInv(st: State, server: Id, owner: Id, first: Option<Id>)
    requires Inv(st) && owner in st.users.Values && HookFinds(st, server, owner, first)
    ensures Inv(OwnerChanged(st, server, owner, first))
  {
    var st' := OwnerChanged(st, server, owner, first);
    forall i | i in st'.subusers
      ensures !Matches(st, i, server, owner)
    {
      assert Matches(st, i, server, owner) <==> i in MatchesOf(st, server, owner);
    }
  }

  /**
    The hook deletes the first row it finds. In any table, consistent or not,
    this leaves no subuser row for the new owner exactly when there was at most one.
  */
  lemma DeletingTheFirstSufficesIff(st: State, server: Id, owner: Id, first: Option<Id>)
    requires HookFinds(st, server, owner, first)
    ensures MatchesOf(OwnerChanged(st, server, owner, first), server, owner) == {} <==> |MatchesOf(st, server, owner)| <= 1
  {
    var before, after := MatchesOf(st, server, owner), MatchesOf(OwnerChanged(st, server, owner, first), server, owner);
    if first.Some? {
      assert after == before - {first.value};
      assert |after| == |before| - 1;
    } else {
      assert after == before == {};
    }
  }

  lemma StoredIsSorted(s: seq<Permission>)
    requires Canonical(s)
    ensures Sort(s) == s
  {
    SortKeepsElements(s);
    CanonicalUnique(Sort(s), s);
  }

  /** Two canonical lists differ exactly when their sets of permissions differ. */
  lemma WritesIffSetsDiffer(cleaned: seq<Permission>, stored: seq<Permission>)
    requires Canonical(cleaned) && Canonical(stored)
    ensures cleaned != Sort(stored) <==> Elements(cleaned) != Elements(stored)
  {
    StoredIsSorted(stored);
    if Elements(cleaned) == Elements(stored) {
      CanonicalUnique(cleaned, stored);
    }
  }

  // ---------------------------------------------------------------------
  // What is stored
  // ---------------------------------------------------------------------

  /** These are the permissions that the rows of a user on a server list. */
  ghost predicate AreHeld(st: State, user: Id, server: Id, held: set<Permission>) {
    forall p :: p in held <==> exists i | i in st.subusers ::
      st.subusers[i].user == user && st.subusers[i].server == server && p in st.subusers[i].permissions
  }

  /**
    Who may hand out a permission of the catalogue: a root administrator, the
    owner, who may update servers by role or permission, or who holds it; and
    `websocket.connect` whoever may view the server.
  */
  lemma MayHandOutIff(st: State, catalogue: set<Permission>, actor: Actor, server: Id, p: Permission, held: set<Permission>)
    requires server in st.owners && AreHeld(st, actor.user, server, held) && p in catalogue
    ensures Can(st, catalogue, actor, server, p) <==>
      || actor.root || st.owners[server] == actor.user || p in held
      || "update server" in held || "update server" in actor.roles
      || (p == "websocket.connect" && ("view server" in held || "view server" in actor.roles))
  {
    assert Asks(UPDATE) == {} && AsksRoles(UPDATE) == {} && Asks(VIEW) == {} && AsksRoles(VIEW) == {};
    forall q
      ensures Holds(st, actor.user, server, q) <==> q in held
    {
    }
  }

  /** Any other ability also counts as a role, and as what its policy method asks for. */
  lemma MayHandOutOtherIff(st: State, catalogue: set<Permission>, actor: Actor, server: Id, p: Permission, held: set<Permission>)
    requires server in st.owners && AreHeld(st, actor.user, server, held) && p !in catalogue
    ensures Can(st, catalogue, actor, server, p) <==>
      || actor.root || st.owners[server] == actor.user || p in held || p in actor.roles
      || (p == "view" && ("view server" in held || "view server" in actor.roles))
      || (p == "update" && ("update server" in held || "update server" in actor.roles))
      || (p == "delete" && ("delete server" in held || "delete server" in actor.roles))
      || (p == "viewAny" && "viewList server" in actor.roles)
      || ((p == "create" || p == "replicate") && "create server" in actor.roles)
      || (p == "deleteAny" && "delete server" in actor.roles)
  {
    forall q
      ensures Holds(st, actor.user, server, q) <==> q in held
    {
    }
    assert forall q | q in Asks(p) :: Asks(p) == {q};
    assert forall q | q in AsksRoles(p) :: AsksRoles(p) == {q};
  }

  /** A list that stores exactly what was asked for and may be handed out, sorted and once each. */
  ghost predicate StoresGranted(st: State, catalogue: set<Permission>, actor: Actor, server: Id,
      asked: seq<Permission>, stored: seq<Permission>)
    requires server in st.owners
  {
    && Canonical(stored)
    && forall p :: p in stored <==>
      (p in asked && (p == "websocket.connect" || Can(st, catalogue, actor, server, p)))
  }

  lemma GrantedIsStored(st: State, catalogue: set<Permission>, actor: Actor, server: Id, asked: seq<Permission>)
    requires server in st.owners
    ensures StoresGranted(st, catalogue, actor, server, asked, Granted(st, catalogue, actor, server, asked))
  {
    var stored := Granted(st, catalogue, actor, server, asked);
    forall p
      ensures p in stored <==> p in asked && (p == "websocket.connect" || Can(st, catalogue, actor, server, p))
    {
      assert p in stored <==> p in Elements(stored);
    }
  }

  /**
    A creation is refused for the owner and for who is a subuser already;
    otherwise it adds one row for the user of the address, who is created when
    there is none, and stores exactly what the actor may hand out.
  */
  lemma CreatedIff(st: State, catalogue: set<Permission>, server: Id, email: Email, asked: seq<Permission>,
      actor: Actor, newUser: Id, id: Id)
    requires Inv(st) && server in st.owners && newUser !in st.users.Values && id !in st.subusers
    ensures var (r, st') := Created(st, catalogue, server, email, asked, actor, newUser, id);
      && (r == Failure(UserIsOwner) <==> email in st.users && st.users[email] == st.owners[server])
      && (r == Failure(SubuserExists) <==> email in st.users && exists i | i in st.subusers ::
        st.subusers[i].user == st.users[email] && st.subusers[i].server == server)
      && (r.Failure? ==> st' == st)
      && (r.Success? ==> IsNewSubuser(st, st', catalogue, server, email, asked, actor, newUser, id))
  {
    if email in st.users {
      assert forall i | i in st.subusers && st.subusers[i].user == st.users[email] && st.subusers[i].server == server ::
        i in MatchesOf(st, server, st.users[email]);
    } else {
      assert forall i | i in st.subusers :: st.subusers[i].user in st.users.Values;
    }
    GrantedIsStored(st, catalogue, actor, server, asked);
  }

  ghost predicate IsNewSubuser(st: State, st': State, catalogue: set<Permission>, server: Id, email: Email,
      asked: seq<Permission>, actor: Actor, newUser: Id, id: Id)
    requires server in st.owners
  {
    && st'.owners == st.owners && st'.subusers.Keys == st.subusers.Keys + {id}
    && (forall i | i in st.subusers && i != id :: st'.subusers[i] == st.subusers[i])
    && st'.users == (if email in st.users then st.users else st.users[email := newUser])
    && st'.subusers[id].user == st'.users[email] && st'.subusers[id].server == server
    && StoresGranted(st, catalogue, actor, server, asked, st'.subusers[id].permissions)
  }

  /** An update replaces the list of one row by exactly what the actor may hand out of the new one. */
  lemma UpdatedStores(st: State, catalogue: set<Permission>, i: Id, asked: seq<Permission>, actor: Actor)
    requires i in st.subusers && st.subusers[i].server in st.owners
    ensures var st' := Updated(st, catalogue, i, asked, actor);
      && st' == st.(subusers := st.subusers[i := st.subusers[i].(permissions := st'.subusers[i].permissions)])
      && StoresGranted(st, catalogue, actor, st.subusers[i].server, asked, st'.subusers[i].permissions)
  {
    GrantedIsStored(st, catalogue, actor, st.subusers[i].server, asked);
  }

  // ---------------------------------------------------------------------
  // Runs and the provenance of permissions
  // ---------------------------------------------------------------------

  datatype Event =
    | Create(server: Id, email: Email, asked: seq<Permission>, actor: Actor, newUser: Id, id: Id)
    | Update(row: Id, asked: seq<Permission>, actor: Actor)
    | Delete(row: Id)
    | ChangeOwner(server: Id, owner: Id, first: Option<Id>)

  ghost predicate Enabled(st: State, e: Event) {
    match e
    case Create(server, _, _, _, newUser, id) =>
      server in st.owners && newUser !in st.users.Values && id !in st.subusers
    case Update(row, _, _) => row in st.subusers
    case Delete(row) => row in st.subusers
    case ChangeOwner(server, owner, first) =>
      server in st.owners && owner in st.users.Values && HookFinds(st, server, owner, first)
  }

  ghost function Next(st: State, catalogue: set<Permission>, e: Event): State
    requires Inv(st) && Enabled(st, e)
  {
    match e
    case Create(server, email, asked, actor, newUser, id) =>
      Created(st, catalogue, server, email, asked, actor, newUser, id).1
    case Update(row, asked, actor) => Updated(st, catalogue, row, asked, actor)
    case Delete(row) => Removed(st, row)
    case ChangeOwner(server, owner, first) => OwnerChanged(st, server, owner, first)
  }

  ghost predicate Run(sts: seq<State>, es: seq<Event>, catalogue: set<Permission>) {
    && |sts| == |es| + 1 && Inv(sts[0])
    && forall k | 0 <= k < |es| ::
      Inv(sts[k]) && Enabled(sts[k], es[k]) && sts[k + 1] == Next(sts[k], catalogue, es[k])
  }

  /** Every operation keeps rows unique, owners out of their own subusers, and lists canonical. */
  lemma NextKeepsInv(st: State, catalogue: set<Permission>, e: Event)
    requires Inv(st) && Enabled(st, e)
    ensures Inv(Next(st, catalogue, e))
  {
    match e {
      case Create(server, email, asked, actor, newUser, id) =>
        CreateKeepsInv(st, catalogue, server, email, asked, actor, newUser, id);
      case Update(row, asked, actor) => UpdateKeepsInv(st, catalogue, row, asked, actor);
      case Delete(row) =>
      case ChangeOwner(server, owner, first) => OwnerChangeKeepsInv(st, server, owner, first);
    }
  }

  /** The event hands `p` on `server` to `user`. */
  predicate Hands(st: State, e: Event, user: Id, server: Id, p: Permission) {
    match e
    case Create(s, email, asked, _, newUser, _) => s == server && UserFor(st, email, newUser) == user && p in asked
    case Update(row, asked, _) => Matches(st, row, server, user) && p in asked
    case _ => false
  }

  /** The permissions that let a subuser hand out `p`: itself, and the one it is derived from. */
  function Sources(catalogue: set<Permission>, p: Permission): set<Permission> {
    {p} + if p in catalogue then {UPDATE} else Asks(p)
  }

  /** The abilities that let a role hand out `p`. */
  function RoleSources(catalogue: set<Permission>, p: Permission): set<Permission> {
    if p in catalogue then {UPDATE} else {p} + Asks(p) + AsksRoles(p)
  }

  /** The actor of the event is the owner of the server, or one of their roles lets them hand out `p`. */
  predicate Root(st: State, catalogue: set<Permission>, e: Event, server: Id, p: Permission)
    requires server in st.owners
  {
    (e.Create? || e.Update?) &&
    (st.owners[server] == e.actor.user || exists q | q in RoleSources(catalogue, p) :: RoleAllows(e.actor, q))
  }

  /** Whoever may hand out a permission is an owner, has a role for it, or holds one of its sources. */
  lemma WhyAllowed(st: State, catalogue: set<Permission>, e: Event, server: Id, p: Permission)
    requires server in st.owners && (e.Create? || e.Update?) && p != CONNECT && Can(st, catalogue, e.actor, server, p)
    ensures Root(st, catalogue, e, server, p)
      || exists q | q in Sources(catalogue, p) :: Holds(st, e.actor.user, server, q)
  {
    assert Asks(UPDATE) == {} && AsksRoles(UPDATE) == {};
    if p in catalogue {
      assert UPDATE in RoleSources(catalogue, p) && UPDATE in Sources(catalogue, p) && p in Sources(catalogue, p);
    } else {
      assert p in RoleSources(catalogue, p) && p in Sources(catalogue, p);
    }
  }

  /**
    A chain of grants: some earlier event handed `p` to the user, and its actor
    was the owner or had a role for it, or held a source of `p` at that time
    because of a chain of their own.
  */
  ghost predicate Provenance(sts: seq<State>, es: seq<Event>, catalogue: set<Permission>,
      k: nat, user: Id, server: Id, p: Permission)
    requires Run(sts, es, catalogue) && k <= |es|
    decreases k, 0
  {
    exists j | 0 <= j < k :: GrantedBy(sts, es, catalogue, j, user, server, p)
  }

  ghost predicate GrantedBy(sts: seq<State>, es: seq<Event>, catalogue: set<Permission>,
      j: nat, user: Id, server: Id, p: Permission)
    requires Run(sts, es, catalogue) && j < |es|
    decreases j, 1
  {
    && Hands(sts[j], es[j], user, server, p) && server in sts[j].owners
    && (|| Root(sts[j], catalogue, es[j], server, p)
        || exists q | q in Sources(catalogue, p) ::
             Holds(sts[j], es[j].actor.user, server, q)
             && Provenance(sts, es, catalogue, j, es[j].actor.user, server, q))
  }

  lemma HoldsAfter(st: State, catalogue: set<Permission>, e: Event, user: Id, server: Id, p: Permission)
    requires Inv(st) && Enabled(st, e) && p != CONNECT
    requires Holds(Next(st, catalogue, e), user, server, p)
    ensures Holds(st, user, server, p) ||
      (&& Hands(st, e, user, server, p) && server in st.owners
       && Can(st, catalogue, e.actor, server, p))
  {
    var st' := Next(st, catalogue, e);
    var i :| i in st'.subusers && Matches(st', i, server, user) && p in st'.subusers[i].permissions;
    if i in st.subusers && st.subusers[i] == st'.subusers[i] {
      assert Matches(st, i, server, user);
    } else {
      match e {
        case Create(s, email, asked, actor, newUser, id) =>
          assert i == id;
          GrantedMember(st, catalogue, actor, s, asked, p);
        case Update(row, asked, actor) =>
          assert i == row;
          GrantedMember(st, catalogue, actor, server, asked, p);
        case _ =>
      }
    }
  }

  lemma GrantedMember(st: State, catalogue: set<Permission>, actor: Actor, server: Id, asked: seq<Permission>, p: Permission)
    requires server in st.owners && p in Granted(st, catalogue, actor, server, asked)
    ensures p in asked && (p == CONNECT || Can(st, catalogue, actor, server, p))
  {
    assert p in Elements(Granted(st, catalogue, actor, server, asked));
  }

  lemma ProvenanceMonotone(sts: seq<State>, es: seq<Event>, catalogue: set<Permission>,
      j: nat, k: nat, user: Id, server: Id, p: Permission)
    requires Run(sts, es, catalogue) && j <= k <= |es|
    requires Provenance(sts, es, catalogue, j, user, server, p)
    ensures Provenance(sts, es, catalogue, k, user, server, p)
  {
    var i :| 0 <= i < j && GrantedBy(sts, es, catalogue, i, user, server, p);
  }

  lemma SourcesAreNoConnect(catalogue: set<Permission>, p: Permission, q: Permission)
    requires p != CONNECT && q in Sources(catalogue, p)
    ensures q != CONNECT
  {
    assert |CONNECT| == 17 && |UPDATE| == 13 && |VIEW| == 11 && |DELETE| == 13;
  }

  /**
    In every run that starts without subusers, every permission a subuser holds,
    other than `websocket.connect`, has a chain of grants in which every granter
    was the owner, had a role for it, or held what let them grant it.
  */
  lemma {:induction false} HeldPermissionsHaveProvenance(sts: seq<State>, es: seq<Event>, catalogue: set<Permission>,
      k: nat, user: Id, server: Id, p: Permission)
    requires Run(sts, es, catalogue) && k <= |es|
    requires sts[0].subusers == map[] && p != CONNECT
    requires Holds(sts[k], user, server, p)
    ensures Provenance(sts, es, catalogue, k, user, server, p)
    decreases k
  {
    if k > 0 {
      var st, e := sts[k - 1], es[k - 1];
      HoldsAfter(st, catalogue, e, user, server, p);
      if Holds(st, user, server, p) {
        HeldPermissionsHaveProvenance(sts, es, catalogue, k - 1, user, server, p);
        ProvenanceMonotone(sts, es, catalogue, k - 1, k, user, server, p);
      } else {
        WhyAllowed(st, catalogue, e, server, p);
        if !Root(st, catalogue, e, server, p) {
          var q :| q in Sources(catalogue, p) && Holds(st, e.actor.user, server, q);
          SourcesAreNoConnect(catalogue, p, q);
          HeldPermissionsHaveProvenance(sts, es, catalogue, k - 1, e.actor.user, server, q);
        }
        assert GrantedBy(sts, es, catalogue, k - 1, user, server, p);
      }
    }
  }

  /** `q` is reached from `p` by going back to what a permission is derived from. */
  predicate Derives(catalogue: set<Permission>, p: Permission, q: Permission) {
    q in Sources(catalogue, p) || exists r | r in Sources(catalogue, p) :: q in Sources(catalogue, r)
  }

  /** The derivation is short: what `p` is derived from is derived from nothing further, or from the same. */
  lemma SourcesClose(catalogue: set<Permission>, p: Permission, q: Permission, r: Permission)
    requires q in Sources(catalogue, p) && Derives(catalogue, q, r)
    ensures Derives(catalogue, p, r)
  {
    assert Asks(UPDATE) == {};
    assert forall x | x in Asks(p) :: Asks(x) == {};
    assert forall x | x in Asks(q) :: Asks(x) == {};
  }

  /**
    No escalation: every chain ends at a grant by the owner or by somebody whose
    role allows it, of the permission itself or of what it is derived from.
  */
  lemma {:induction false} EveryChainHasARoot(sts: seq<State>, es: seq<Event>, catalogue: set<Permission>,
      k: nat, user: Id, server: Id, p: Permission)
    requires Run(sts, es, catalogue) && k <= |es|
    requires Provenance(sts, es, catalogue, k, user, server, p)
    ensures exists j, q | 0 <= j < k && Derives(catalogue, p, q) ::
      server in sts[j].owners && Root(sts[j], catalogue, es[j], server, q) && q in es[j].asked
    decreases k
  {
    var j :| 0 <= j < k && GrantedBy(sts, es, catalogue, j, user, server, p);
    assert p in Sources(catalogue, p) && Derives(catalogue, p, p);
    if !Root(sts[j], catalogue, es[j], server, p) {
      var q :| q in Sources(catalogue, p) && Provenance(sts, es, catalogue, j, es[j].actor.user, server, q);
      EveryChainHasARoot(sts, es, catalogue, j, es[j].actor.user, server, q);
      var i, r :| 0 <= i < j && Derives(catalogue, q, r)
        && server in sts[i].owners && Root(sts[i], catalogue, es[i], server, r) && r in es[i].asked;
      SourcesClose(catalogue, p, q, r);
    }
  }
}
