/**
  Runs of all services that decide who owns which allocation. A service call that
  fails leaves the tables as they were, so a run lists the calls that took effect;
  a creation whose daemon call failed did take effect, twice.
*/
module AllocationRuns {
  import opened Wrappers
  import opened Database
  import Assignment
  import AutoAssign
  import Build
  import Creation
  import Deletion
  import Transfers

  datatype Op =
    | Assign(last: Id, common: Assignment.Common, ips: seq<Ip>, entries: seq<string>)
    | Auto(server: Id, given: Id, config: AutoAssign.Config)
    | Create(server: Id, request: Creation.Request, place: Creation.Placement, answer: Creation.Answer)
    | Modify(server: Id, change: Build.Request, default: Id)
    | Start(server: Id, target: Transfers.Target, transfer: Id)
    | Fail(server: Id, transfer: Id)
    | Succeed(server: Id, transfer: Id)
    | Release(allocation: Id)
    | Drop(allocation: Id)
    | Delete(server: Id)

  /** `op` takes the tables from `t` to `t'`. */
  ghost predicate Step(t: Tables, op: Op, t': Tables) {
    match op
    case Assign(last, c, ips, entries) =>
      && (forall a | a in t.allocations :: a <= last) && (c.owner.Some? ==> c.owner.value in t.servers)
      && Assignment.Accepted(t.allocations, c, ips, entries) && t' == Assignment.Assigned(t, last, c, ips, entries)
    case Auto(s, a, config) =>
      AutoAssign.HasHome(t, s) && AutoAssign.Given(t, t', s, a, config)
    case Create(s, q, p, answer) =>
      s !in t.servers && Creation.IsFreeHome(t, p.allocation) && t' == Creation.After(t, s, q, p, answer)
    case Modify(s, q, default) =>
      s in t.servers && Build.Accepts(t, s, q) && default in Build.Defaults(t, s, q) && t' == Build.Built(t, s, q, default)
    case Start(s, g, x) =>
      s in t.servers && Transfers.CanTransfer(t, s) && x !in t.transfers && t' == Transfers.Started(t, s, g, x)
    case Fail(s, x) =>
      s in t.servers && Transfers.Current(t, s, x) && t' == Transfers.Failed(t, x)
    case Succeed(s, x) =>
      s in t.servers && Transfers.Current(t, s, x)
      && Transfers.MovedServerIsValid(t, s, t.transfers[x].newAllocation) && t' == Transfers.Succeeded(t, s, x)
    case Release(a) => a in t.allocations && !IsDefault(t, a) && t' == Released(t, a)
    case Drop(a) => Unassigned(t, a) && t' == WithoutAllocation(t, a)
    case Delete(s) => s in t.servers && t' == Deletion.Deleted(t, s)
  }

  /**
    What the services do not check themselves: a creation must not list another
    server's default, a failed transfer must not have one among its new
    allocations, and a transfer that succeeds needs a new default it owns.
  */
  predicate Safe(t: Tables, op: Op) {
    match op
    case Create(_, q, p, _) => Transfers.NoDefaultIn(t, Creation.Chosen(q, p))
    case Fail(_, x) => x in t.transfers && Transfers.NoDefaultIn(t, Transfers.NewSide(t.transfers[x]))
    case Succeed(s, x) => x in t.transfers && Transfers.MoveIsSafe(t, s, t.transfers[x])
    case _ => true
  }

  // ---------------------------------------------------------------------
  // One step
  // ---------------------------------------------------------------------

  lemma AssignKeepsInv(t: Tables, last: Id, c: Assignment.Common, ips: seq<Ip>, entries: seq<string>)
    requires Inv(t) && (forall a | a in t.allocations :: a <= last) && (c.owner.Some? ==> c.owner.value in t.servers)
    requires Assignment.Accepted(t.allocations, c, ips, entries)
    ensures Inv(Assignment.Assigned(t, last, c, ips, entries))
  {
    var ports := Assignment.Ports(entries);
    Assignment.RowsHaveOwner(c, ips, ports);
    Assignment.InsertKeepsInv(t, last, Assignment.Rows(c, ips, ports));
  }

  lemma CreateKeepsInvIff(t: Tables, s: Id, q: Creation.Request, p: Creation.Placement, answer: Creation.Answer)
    requires Inv(t) && s !in t.servers && Creation.IsFreeHome(t, p.allocation)
    ensures Inv(Creation.After(t, s, q, p, answer)) <==> Transfers.NoDefaultIn(t, Creation.Chosen(q, p))
  {
    if answer != Creation.Unreachable {
      Creation.CreateKeepsInvIff(t, s, q, p);
    } else {
      Creation.FailedCreationKeepsInvIff(t, s, q, p);
    }
  }

  lemma ModifyKeepsInv(t: Tables, s: Id, q: Build.Request, default: Id)
    requires Inv(t) && s in t.servers && Build.Accepts(t, s, q) && default in Build.Defaults(t, s, q)
    ensures Inv(Build.Built(t, s, q, default))
  {
    Build.AcceptsIffADefaultIsOwned(t, s, q);
    Build.DefaultKeepsInvIff(t, s, q, default);
  }

  /** Every step of every service keeps the invariant exactly when it is safe. */
  lemma StepKeepsInvIff(t: Tables, op: Op, t': Tables)
    requires Inv(t) && Step(t, op, t')
    ensures Inv(t') <==> Safe(t, op)
  {
    match op {
      case Assign(last, c, ips, entries) => AssignKeepsInv(t, last, c, ips, entries);
      case Auto(s, a, config) => AutoAssign.OneMore(t, t', s, a, config);
      case Create(s, q, p, answer) => CreateKeepsInvIff(t, s, q, p, answer);
      case Modify(s, q, default) => ModifyKeepsInv(t, s, q, default);
      case Start(s, g, x) => Transfers.StartKeepsInvIff(t, s, g, x);
      case Fail(s, x) => Transfers.FailKeepsInvIff(t, x);
      case Succeed(s, x) => Transfers.SucceedKeepsInvIff(t, s, x);
      case Release(a) => ReleaseKeepsInvIff(t, a);
      case Drop(a) => DeleteKeepsInv(t, a);
      case Delete(s) => Deletion.DeletionKeepsInv(t, s);
    }
  }

  // ---------------------------------------------------------------------
  // Runs
  // ---------------------------------------------------------------------

  /** `states` are the tables before, between and after the calls of `ops`. */
  ghost predicate IsRun(states: seq<Tables>, ops: seq<Op>) {
    |states| == |ops| + 1 && forall i | 0 <= i < |ops| :: Step(states[i], ops[i], states[i + 1])
  }

  ghost predicate AllSafe(states: seq<Tables>, ops: seq<Op>)
    requires |states| == |ops| + 1
  {
    forall i | 0 <= i < |ops| :: Safe(states[i], ops[i])
  }

  lemma {:induction false} SafeRunsKeepInv(states: seq<Tables>, ops: seq<Op>, n: nat)
    requires IsRun(states, ops) && Inv(states[0]) && AllSafe(states, ops) && n <= |ops|
    ensures Inv(states[n])
  {
    if n > 0 {
      SafeRunsKeepInv(states, ops, n - 1);
      StepKeepsInvIff(states[n - 1], ops[n - 1], states[n]);
    }
  }

  /** Over any run, the invariant holds throughout exactly when every step was safe. */
  lemma RunsKeepInvIff(states: seq<Tables>, ops: seq<Op>)
    requires IsRun(states, ops) && Inv(states[0])
    ensures (forall i | 0 <= i < |states| :: Inv(states[i])) <==> AllSafe(states, ops)
  {
    if AllSafe(states, ops) {
      forall i | 0 <= i < |states|
        ensures Inv(states[i])
      {
        SafeRunsKeepInv(states, ops, i);
      }
    }
    if forall i | 0 <= i < |states| :: Inv(states[i]) {
      forall i | 0 <= i < |ops|
        ensures Safe(states[i], ops[i])
      {
        assert Inv(states[i]) && Inv(states[i + 1]);
        StepKeepsInvIff(states[i], ops[i], states[i + 1]);
      }
    }
  }

  /** Nobody else has any of these allocations. */
  predicate NobodyElses(t: Tables, s: Id, ids: set<Id>) {
    forall a | a in t.allocations && a in ids :: t.allocations[a].owner in [None, Some(s)]
  }

  /**
    What an operator can see to, looking at the rows concerned only: new servers get
    unassigned allocations; the allocations that a transfer gives back are nobody
    else's; and the server's default is not among them when it is needed.
  */
  predicate Ordinary(t: Tables, op: Op) {
    match op
    case Create(_, q, p, _) => Creation.AllUnassigned(t, Creation.Chosen(q, p))
    case Fail(s, x) =>
      x in t.transfers && s in t.servers && NobodyElses(t, s, Transfers.NewSide(t.transfers[x]))
      && t.servers[s].allocation !in Transfers.NewSide(t.transfers[x])
    case Succeed(s, x) =>
      x in t.transfers && NobodyElses(t, s, Transfers.OldSide(t.transfers[x]))
      && t.transfers[x].newAllocation in Owned(t, s) && t.transfers[x].newAllocation !in Transfers.OldSide(t.transfers[x])
    case _ => true
  }

  lemma NobodyElsesDefaults(t: Tables, s: Id, ids: set<Id>, r: Id)
    requires Inv(t) && NobodyElses(t, s, ids) && r in t.servers && r != s
    ensures t.servers[r].allocation !in ids
  {
    assert t.servers[r].allocation in Owned(t, r);
  }

  lemma OrdinaryIsSafe(t: Tables, op: Op)
    requires Inv(t) && Ordinary(t, op)
    ensures Safe(t, op)
  {
    if op.Create? {
      Creation.UnassignedAreNoDefaults(t, Creation.Chosen(op.request, op.place));
    } else if op.Fail? {
      var ids := Transfers.NewSide(t.transfers[op.transfer]);
      forall r | r in t.servers
        ensures t.servers[r].allocation !in ids
      {
        if r != op.server {
          NobodyElsesDefaults(t, op.server, ids, r);
        }
      }
    } else if op.Succeed? {
      var ids := Transfers.OldSide(t.transfers[op.transfer]);
      forall r | r in t.servers && r != op.server
        ensures t.servers[r].allocation !in ids
      {
        NobodyElsesDefaults(t, op.server, ids, r);
      }
    }
  }

  /** Bulk and automatic assignment, build changes, transfer starts, releases and deletions need no care at all. */
  lemma {:induction false} OrdinaryRunsKeepInv(states: seq<Tables>, ops: seq<Op>, n: nat)
    requires IsRun(states, ops) && Inv(states[0]) && n <= |ops|
    requires forall i | 0 <= i < |ops| :: Ordinary(states[i], ops[i])
    ensures Inv(states[n])
  {
    if n > 0 {
      OrdinaryRunsKeepInv(states, ops, n - 1);
      OrdinaryIsSafe(states[n - 1], ops[n - 1]);
      StepKeepsInvIff(states[n - 1], ops[n - 1], states[n]);
    }
  }

  // ---------------------------------------------------------------------
  // A run that is not safe
  // ---------------------------------------------------------------------

  /**
    While a transfer is open, the server may make a reserved allocation its default;
    the report that the transfer failed then takes that default away.
  */
  lemma FailureTakesAReservedDefault(t: Tables, s: Id, g: Transfers.Target, x: Id)
    requires Inv(t) && s in t.servers && Transfers.CanTransfer(t, s) && x !in t.transfers
    requires g.allocation in Transfers.Reserved(t, g)
    ensures var t1 := Transfers.Started(t, s, g, x);
      var q := Build.Request([], [], Some(g.allocation));
      var t2 := Build.Built(t1, s, q, g.allocation);
      && Step(t, Start(s, g, x), t1) && Step(t1, Modify(s, q, g.allocation), t2)
      && Inv(t2) && !Inv(Transfers.Failed(t2, x))
  {
    var t1 := Transfers.Started(t, s, g, x);
    var q := Build.Request([], [], Some(g.allocation));
    Transfers.StartKeepsInvIff(t, s, g, x);
    assert g.allocation in Owned(t1, s);
    assert Build.Accepts(t1, s, q);
    ModifyKeepsInv(t1, s, q, g.allocation);
    var t2 := Build.Built(t1, s, q, g.allocation);
    Transfers.FailKeepsInvIff(t2, x);
    assert t2.servers[s].allocation in Transfers.NewSide(t2.transfers[x]);
  }
}
