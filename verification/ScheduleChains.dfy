/**
  The order in which a chain runs the tasks of its schedule, while users insert,
  delete and move tasks between its jobs (app/Jobs/Schedule/RunTaskJob.php,
  app/Http/Controllers/Api/Client/Servers/ScheduleTaskController.php).
*/
module ScheduleChains {
  import opened Wrappers
  import opened FiniteSets
  import opened Schedules
  import opened ScheduleRuns

  // ---------------------------------------------------------------------
  // What a chain sends
  // ---------------------------------------------------------------------

  /** The task whose action an event sends to the daemon, if it belongs to the schedule. */
  function Sent(st: State, e: Event, s: Id): Option<Id>
    requires Valid(st) && Enabled(st, e)
  {
    match e
    case Start(first, now, online, busy, _, _, _) =>
      if st.tasks[first].schedule == s && now && !busy && !Held(st, first, online) then Some(first) else None
    case Work(j, busy, _, _, _) =>
      if Alive(st, j) && st.tasks[st.queue[j].task].schedule == s && Sends(st, st.queue[j], busy)
      then Some(st.queue[j].task) else None
    case _ => None
  }

  /**
    An action is sent by a job of an active schedule, or a manual one, and by a
    start that runs at once and is not held back, as long as the server has no status.
  */
  lemma SentIff(st: State, e: Event, s: Id, t: Id)
    requires Valid(st) && Enabled(st, e)
    ensures Sent(st, e, s) == Some(t) <==> t in st.tasks && st.tasks[t].schedule == s && match e
      case Start(first, now, online, busy, _, _, _) =>
        t == first && now && !busy && (online || !st.schedules[s].onlyWhenOnline)
      case Work(j, busy, _, _, _) =>
        st.queue[j].task == t && !busy && (st.schedules[s].active || st.queue[j].manual)
      case _ => false
  {
  }

  function Place(st: State, t: Id): int {
    if t in st.tasks then st.tasks[t].sequence else 0
  }

  /** The tasks of the live jobs of a schedule. */
  function Due(st: State, s: Id): set<Id>
    requires s in st.schedules
  {
    LineOf(st, s).jobs.Values
  }

  ghost predicate Single(line: Line) {
    forall i, j | i in line.jobs && j in line.jobs :: i == j
  }

  /** One chain: a start while no job of the schedule is pending, no second start of it, and no end of the schedule. */
  ghost predicate Chain(sts: seq<State>, es: seq<Event>, s: Id) {
    && Run(sts, es) && |es| > 0
    && s in sts[0].schedules && LineOf(sts[0], s).jobs == map[]
    && es[0].Start? && sts[0].tasks[es[0].first].schedule == s
    && (forall j | 1 <= j < |es| && es[j].Start? :: sts[j].tasks[es[j].first].schedule != s)
    && (forall j | 0 <= j < |es| :: es[j] != Adjust(Drop(s)))
  }

  ghost function SentTasks(sts: seq<State>, es: seq<Event>, s: Id, k: nat): seq<Id>
    requires Run(sts, es) && k <= |es|
  {
    if k == 0 then [] else MoreTasks(sts[k - 1], es[k - 1], s, SentTasks(sts, es, s, k - 1))
  }

  function MoreTasks(st: State, e: Event, s: Id, sent: seq<Id>): seq<Id>
    requires Valid(st) && Enabled(st, e)
  {
    match Sent(st, e, s)
    case None => sent
    case Some(t) => sent + [t]
  }

  /** The sequence ids of the tasks sent, as they were when each was sent. */
  ghost function Trace(sts: seq<State>, es: seq<Event>, s: Id, k: nat): seq<int>
    requires Run(sts, es) && k <= |es|
  {
    if k == 0 then [] else MoreIds(sts[k - 1], es[k - 1], s, Trace(sts, es, s, k - 1))
  }

  function MoreIds(st: State, e: Event, s: Id, trace: seq<int>): seq<int>
    requires Valid(st) && Enabled(st, e)
  {
    match Sent(st, e, s)
    case None => trace
    case Some(t) => trace + [Place(st, t)]
  }

  predicate Increasing(s: seq<int>) {
    forall i, j | 0 <= i < j < |s| :: s[i] < s[j]
  }

  // ---------------------------------------------------------------------
  // What events do to rows and pending tasks
  // ---------------------------------------------------------------------

  /** Every task keeps its schedule and its place in it. */
  ghost predicate SamePlaces(st: State, st': State) {
    && st'.tasks.Keys == st.tasks.Keys && st'.lastTask == st.lastTask
    && forall t | t in st.tasks ::
      st'.tasks[t].sequence == st.tasks[t].sequence && st'.tasks[t].schedule == st.tasks[t].schedule
  }

  lemma RanKeepsPlaces(st: State, job: Job, busy: bool, outcome: Outcome, next: Option<Id>, id: Id)
    requires Valid(st) && job.task in st.tasks && First(st, Later(st, job.task), next)
    ensures SamePlaces(st, Ran(st, job, busy, outcome, next, id))
  {
  }

  /** The list of a schedule's tasks is the same. */
  ghost predicate SameList(st: State, st': State, s: Id) {
    st'.lastTask == st.lastTask && TasksOf(st', s) == TasksOf(st, s)
    && forall t | t in TasksOf(st, s) :: Place(st', t) == Place(st, t)
  }

  /** Starts, jobs and settings of schedules change no place, unless they delete the schedule. */
  lemma PlacesKept(st: State, e: Event, s: Id)
    requires Valid(st) && Enabled(st, e) && !e.Change? && e != Adjust(Drop(s))
    ensures SameList(st, Next(st, e), s)
  {
    match e {
      case Start(first, now, online, busy, outcome, next, id) =>
        var begun := Begun(st, first);
        assert SamePlaces(st, begun);
        if !Held(begun, first, online) && now {
          RanKeepsPlaces(begun, Job(first, true), busy, outcome, next, id);
        }
        assert SamePlaces(st, Next(st, e));
      case Work(job, busy, outcome, next, id) =>
        var taken := st.(queue := st.queue - {job});
        if Alive(st, job) {
          assert Later(taken, st.queue[job].task) == Later(st, st.queue[job].task);
          RanKeepsPlaces(taken, st.queue[job], busy, outcome, next, id);
        }
        assert SamePlaces(st, Next(st, e));
      case Adjust(_) =>
    }
  }

  /** The event may be the next one of a chain. */
  ghost predicate MayCome(st: State, e: Event, s: Id)
    requires Valid(st) && Enabled(st, e) && s in st.schedules
  {
    && Single(LineOf(st, s)) && e != Adjust(Drop(s))
    && (e.Start? && st.tasks[e.first].schedule == s ==> LineOf(st, s).jobs == map[])
  }

  /** No failure: the server is online and free, and the action succeeds or its failure is tolerated. */
  predicate Smooth(st: State, e: Event, s: Id)
    requires Valid(st) && Enabled(st, e)
  {
    match e
    case Start(first, now, online, busy, outcome, _, _) =>
      st.tasks[first].schedule == s ==>
        (!Held(st, first, online) && (now ==> !busy && Tolerated(st.tasks[first], outcome)))
    case Work(j, busy, outcome, _, _) =>
      Alive(st, j) && st.tasks[st.queue[j].task].schedule == s ==> Proceeds(st, st.queue[j], busy, outcome)
    case _ => true
  }

  lemma OneValue(j: Id, t: Id)
    ensures map[j := t].Values == {t}
  {
    assert map[j := t][j] == t;
  }

  lemma EmptiedLine(line: Line, j: Id)
    requires Single(line) && j in line.jobs
    ensures line.jobs - {j} == map[] && line.jobs.Values == {line.jobs[j]}
  {
    assert line.jobs == map[j := line.jobs[j]];
    OneValue(j, line.jobs[j]);
  }

  lemma PassedDue(line: Line, t: Id, next: Option<Id>, id: Id)
    requires line.jobs == map[]
    ensures Single(Passed(line, t, next, id))
    ensures Passed(line, t, next, id).jobs.Values == if next.Some? then {next.value} else {}
  {
    if next.Some? {
      assert Passed(line, t, next, id).jobs == map[id := next.value];
      OneValue(id, next.value);
    }
  }

  /** A task that is sent hands over to one of the nearest later tasks, or to none. */
  lemma HandsOver(st: State, e: Event, s: Id, a: Id)
    requires Valid(st) && Enabled(st, e) && s in st.schedules && MayCome(st, e, s) && Sent(st, e, s) == Some(a)
    ensures s in Next(st, e).schedules && Single(LineOf(Next(st, e), s)) && a in TasksOf(st, s)
    ensures e.Start? || Due(st, s) == {a}
    ensures Due(Next(st, e), s) == {} ||
      exists n :: Due(Next(st, e), s) == {n} && First(st, Later(st, a), Some(n))
    ensures Smooth(st, e, s) && Due(Next(st, e), s) == {} ==> Later(st, a) == {}
  {
    var line := LineOf(st, s);
    LineStep(st, e, s);
    match e {
      case Start(first, _, _, _, _, _, _) =>
        PassedDue(line.(processing := true, queued := line.queued + {first}), first,
          Successor(st, Job(first, true), e.busy, e.outcome, e.next), e.id);
      case Work(j, _, _, _, _) =>
        assert j in line.jobs;
        EmptiedLine(line, j);
        PassedDue(line.(jobs := line.jobs - {j}), a, Successor(st, st.queue[j], e.busy, e.outcome, e.next), e.id);
    }
  }

  /** An event that sends nothing leaves pending what was, or the first task of a new chain. */
  lemma StaysQuiet(st: State, e: Event, s: Id)
    requires Valid(st) && Enabled(st, e) && s in st.schedules && MayCome(st, e, s)
    requires Sent(st, e, s) == None && !e.Change?
    ensures s in Next(st, e).schedules && Single(LineOf(Next(st, e), s))
    ensures Due(Next(st, e), s) <= Due(st, s) ||
      (e.Start? && st.tasks[e.first].schedule == s && Due(Next(st, e), s) == {e.first})
    ensures Smooth(st, e, s) && !(e.Start? && st.tasks[e.first].schedule == s) ==>
      Due(Next(st, e), s) == Due(st, s)
    ensures Smooth(st, e, s) && e.Start? && st.tasks[e.first].schedule == s ==>
      Due(Next(st, e), s) == {e.first}
  {
    var line := LineOf(st, s);
    LineStep(st, e, s);
    match e {
      case Start(first, now, online, _, _, _, _) =>
        if st.tasks[first].schedule == s {
          var begun := line.(processing := true, queued := line.queued + {first});
          if Held(st, first, online) {
            PassedDue(begun, first, None, e.id);
          } else if !now {
            assert begun.jobs[e.id := first] == map[e.id := first];
            OneValue(e.id, first);
          } else {
            PassedDue(begun, first, Successor(st, Job(first, true), e.busy, e.outcome, e.next), e.id);
          }
        }
      case Work(j, _, _, _, _) =>
        if Alive(st, j) && st.tasks[st.queue[j].task].schedule == s {
          assert j in line.jobs;
          EmptiedLine(line, j);
          PassedDue(line.(jobs := line.jobs - {j}), st.queue[j].task,
            Successor(st, st.queue[j], e.busy, e.outcome, e.next), e.id);
        }
      case Adjust(_) =>
    }
  }

  /** An edit deletes at most the pending task itself. */
  lemma EditedDue(st: State, edit: Edit, s: Id)
    requires Valid(st) && Editable(st, edit) && s in st.schedules && Single(LineOf(st, s))
    ensures Single(LineOf(Edited(st, edit), s))
    ensures Due(Edited(st, edit), s) == Due(st, s) - Removed(edit)
  {
    LineStep(st, Change(edit), s);
    var jobs, jobs' := LineOf(st, s).jobs, LineOf(Edited(st, edit), s).jobs;
    forall t | t in jobs.Values && t !in Removed(edit)
      ensures t in jobs'.Values
    {
      var j :| j in jobs && jobs[j] == t;
      assert j in jobs' && jobs'[j] == t;
    }
  }

  lemma DueAreTasks(st: State, s: Id)
    requires s in st.schedules
    ensures Due(st, s) <= TasksOf(st, s)
  {
  }

  /** The tasks of a schedule after an edit, and their places. */
  lemma EditedTasks(st: State, edit: Edit, s: Id)
    requires Valid(st) && Editable(st, edit)
    ensures TasksOf(Edited(st, edit), s) ==
      TasksOf(st, s) - Removed(edit) + if edit.Insert? && edit.schedule == s then {st.lastTask + 1} else {}
    ensures forall t | t in TasksOf(st, s) && t !in Removed(edit) ::
      Place(Edited(st, edit), t) == NewPlace(st, edit, t)
    ensures edit.Insert? ==> Place(Edited(st, edit), st.lastTask + 1) == Slot(st, edit.schedule, edit.at)
    ensures st.lastTask <= Edited(st, edit).lastTask
  {
    EditedRows(st, edit);
  }

  // ---------------------------------------------------------------------
  // Sequence ids: when the pending one stays ahead of all that were sent
  // ---------------------------------------------------------------------

  ghost predicate Ahead(st: State, s: Id, trace: seq<int>)
    requires s in st.schedules
  {
    forall p, x | p in Due(st, s) && x in trace :: x < Place(st, p)
  }

  predicate AllBelow(trace: seq<int>, bound: int) {
    forall x | x in trace :: x < bound
  }

  /**
    What an edit must respect to keep a pending task ahead: closing the gap of a
    task placed before it needs another gap, and so does moving such a task past
    it; the pending task itself, or a whole new order, may not come too early.
  */
  predicate KeepsAheadAt(st: State, e: Edit, p: Id, trace: seq<int>)
    requires Editable(st, e) && p in st.tasks
  {
    match e
    case Insert(_, _, _) => true
    case Remove(_) => true
    case Close(u) =>
      st.tasks[u].schedule == st.tasks[p].schedule && Place(st, u) < Place(st, p) ==>
        AllBelow(trace, Place(st, p) - 1)
    case Move(u, to, _) =>
      if p == u then AllBelow(trace, Target(st, u, to))
      else st.tasks[u].schedule == st.tasks[p].schedule && Place(st, u) < Place(st, p) <= Target(st, u, to) ==>
        AllBelow(trace, Place(st, p) - 1)
    case Reorder(schedule, order) =>
      st.tasks[p].schedule == schedule ==> p in order && AllBelow(trace, Position(order, p) + 1)
  }

  predicate KeepsAhead(st: State, e: Edit, s: Id, trace: seq<int>)
    requires Editable(st, e) && s in st.schedules
  {
    forall p | p in Due(st, s) && p !in Removed(e) :: p in st.tasks && KeepsAheadAt(st, e, p, trace)
  }

  lemma KeepsAheadAtIff(st: State, e: Edit, p: Id, trace: seq<int>)
    requires Editable(st, e) && p in st.tasks && AllBelow(trace, Place(st, p))
    ensures AllBelow(trace, NewPlace(st, e, p)) <==> KeepsAheadAt(st, e, p, trace)
  {
    if e.Reorder? && st.tasks[p].schedule == e.schedule {
      assert p in Elements(e.order);
    }
  }

  /** An edit keeps the pending sequence id ahead of everything sent exactly under this condition on the table before it. */
  lemma EditKeepsAheadIff(st: State, e: Edit, s: Id, trace: seq<int>)
    requires Valid(st) && Editable(st, e) && s in st.schedules && Single(LineOf(st, s)) && Ahead(st, s, trace)
    ensures Ahead(Edited(st, e), s, trace) <==> KeepsAhead(st, e, s, trace)
  {
    var st' := Edited(st, e);
    EditedDue(st, e, s);
    EditedTasks(st, e, s);
    DueAreTasks(st, s);
    forall p | p in Due(st, s) && p !in Removed(e)
      ensures AllBelow(trace, Place(st', p)) <==> KeepsAheadAt(st, e, p, trace)
    {
      assert AllBelow(trace, Place(st, p));
      KeepsAheadAtIff(st, e, p, trace);
    }
    assert Ahead(st', s, trace) <==> forall p | p in Due(st', s) :: AllBelow(trace, Place(st', p));
  }

  lemma AheadSends(st: State, e: Event, s: Id, trace: seq<int>, a: Id)
    requires Valid(st) && Enabled(st, e) && s in st.schedules && MayCome(st, e, s) && Sent(st, e, s) == Some(a)
    requires Ahead(st, s, trace) && Increasing(trace) && (e.Start? ==> trace == [])
    ensures s in Next(st, e).schedules
    ensures Increasing(trace + [Place(st, a)]) && Ahead(Next(st, e), s, trace + [Place(st, a)])
  {
    HandsOver(st, e, s, a);
    PlacesKept(st, e, s);
    assert forall i | 0 <= i < |trace| :: trace[i] in trace;
    assert AllBelow(trace, Place(st, a));
  }

  /** One event of a chain, other than an edit, keeps the ids increasing and the pending one ahead. */
  lemma AheadStep(st: State, e: Event, s: Id, trace: seq<int>)
    requires Valid(st) && Enabled(st, e) && s in st.schedules && MayCome(st, e, s) && !e.Change?
    requires Ahead(st, s, trace) && Increasing(trace)
    requires e.Start? && st.tasks[e.first].schedule == s ==> trace == []
    ensures s in Next(st, e).schedules && Single(LineOf(Next(st, e), s))
    ensures Increasing(MoreIds(st, e, s, trace)) && Ahead(Next(st, e), s, MoreIds(st, e, s, trace))
  {
    if Sent(st, e, s) == None {
      StaysQuiet(st, e, s);
      PlacesKept(st, e, s);
    } else {
      HandsOver(st, e, s, Sent(st, e, s).value);
      AheadSends(st, e, s, trace, Sent(st, e, s).value);
    }
  }

  lemma {:induction false} ChainIsSingle(sts: seq<State>, es: seq<Event>, s: Id, k: nat)
    requires Chain(sts, es, s) && k < |sts|
    ensures Valid(sts[k]) && s in sts[k].schedules && Single(LineOf(sts[k], s))
    ensures k < |es| ==> MayCome(sts[k], es[k], s)
  {
    if k > 0 {
      ChainIsSingle(sts, es, s, k - 1);
      var st, e := sts[k - 1], es[k - 1];
      if e.Change? {
        EditedDue(st, e.edit, s);
      } else if Sent(st, e, s) == None {
        StaysQuiet(st, e, s);
      } else {
        HandsOver(st, e, s, Sent(st, e, s).value);
      }
    }
  }

  /** Every edit during the chain respects the pending sequence id. */
  ghost predicate EditsKeepAhead(sts: seq<State>, es: seq<Event>, s: Id)
    requires Run(sts, es)
  {
    forall j | 0 <= j < |es| && es[j].Change? ::
      s in sts[j].schedules && KeepsAhead(sts[j], es[j].edit, s, Trace(sts, es, s, j))
  }

  /**
    Within one chain the sequence ids sent strictly increase, whatever is
    inserted or deleted in the panel, as long as no edit closes the distance
    between the pending id and those already sent.
  */
  lemma {:induction false} ChainAscends(sts: seq<State>, es: seq<Event>, s: Id, k: nat)
    requires Chain(sts, es, s) && k < |sts| && EditsKeepAhead(sts, es, s)
    ensures s in sts[k].schedules
    ensures Increasing(Trace(sts, es, s, k)) && Ahead(sts[k], s, Trace(sts, es, s, k))
  {
    if k > 0 {
      ChainAscends(sts, es, s, k - 1);
      ChainIsSingle(sts, es, s, k - 1);
      var st, e, trace := sts[k - 1], es[k - 1], Trace(sts, es, s, k - 1);
      if e.Change? {
        EditKeepsAheadIff(st, e.edit, s, trace);
      } else {
        assert k == 1 ==> trace == [];
        AheadStep(st, e, s, trace);
      }
    }
  }

  /** The pending id is ahead in all states of a chain exactly when every edit respects it. */
  lemma ChainAheadIff(sts: seq<State>, es: seq<Event>, s: Id)
    requires Chain(sts, es, s)
    ensures (forall k | 0 <= k < |sts| :: s in sts[k].schedules && Ahead(sts[k], s, Trace(sts, es, s, k)))
      <==> EditsKeepAhead(sts, es, s)
  {
    if EditsKeepAhead(sts, es, s) {
      forall k | 0 <= k < |sts|
        ensures s in sts[k].schedules && Ahead(sts[k], s, Trace(sts, es, s, k))
      {
        ChainAscends(sts, es, s, k);
      }
    }
    if forall k | 0 <= k < |sts| :: s in sts[k].schedules && Ahead(sts[k], s, Trace(sts, es, s, k)) {
      forall j | 0 <= j < |es| && es[j].Change?
        ensures s in sts[j].schedules && KeepsAhead(sts[j], es[j].edit, s, Trace(sts, es, s, j))
      {
        ChainIsSingle(sts, es, s, j);
        assert Ahead(sts[j + 1], s, Trace(sts, es, s, j + 1));
        EditKeepsAheadIff(sts[j], es[j].edit, s, Trace(sts, es, s, j));
      }
    }
  }

  // ---------------------------------------------------------------------
  // Tasks: each at most once, and in their order
  // ---------------------------------------------------------------------

  ghost predicate DistinctSequences(st: State, s: Id) {
    forall t, u | t in TasksOf(st, s) && u in TasksOf(st, s) && Place(st, t) == Place(st, u) :: t == u
  }

  predicate Touches(st: State, e: Edit, s: Id)
    requires Editable(st, e)
  {
    match e
    case Insert(schedule, _, _) => schedule == s
    case Close(u) => st.tasks[u].schedule == s
    case Remove(u) => st.tasks[u].schedule == s
    case Move(u, _, _) => st.tasks[u].schedule == s
    case Reorder(schedule, _) => schedule == s
  }

  predicate Shifts(e: Edit) {
    e.Insert? || e.Close? || e.Remove?
  }

  lemma UntouchedPlace(st: State, e: Edit, s: Id, t: Id)
    requires Editable(st, e) && !Touches(st, e, s) && t in TasksOf(st, s)
    ensures NewPlace(st, e, t) == Place(st, t) && t !in Removed(e)
  {
  }

  lemma NewPlacesDiffer(st: State, e: Edit, s: Id, t: Id, u: Id)
    requires Valid(st) && Editable(st, e) && DistinctSequences(st, s)
    requires t in TasksOf(st, s) - Removed(e) && u in TasksOf(st, s) - Removed(e) && t != u
    ensures NewPlace(st, e, t) != NewPlace(st, e, u)
  {
    assert Place(st, t) != Place(st, u);
    match e {
      case Close(w) =>
        if st.tasks[w].schedule == s {
          assert Place(st, w) != Place(st, t) && Place(st, w) != Place(st, u);
        }
      case Move(w, _, _) =>
        if st.tasks[w].schedule == s {
          assert t != w ==> Place(st, w) != Place(st, t);
          assert u != w ==> Place(st, w) != Place(st, u);
        }
      case Reorder(schedule, order) =>
        if schedule == s {
          assert t in Elements(order) && u in Elements(order);
        }
      case _ =>
    }
  }

  /** Inserting and deleting shift places, but keep their order. */
  lemma ShiftsKeepOrder(st: State, e: Edit, s: Id, t: Id, u: Id)
    requires Valid(st) && Editable(st, e) && Shifts(e) && (Touches(st, e, s) ==> DistinctSequences(st, s))
    requires t in TasksOf(st, s) - Removed(e) && u in TasksOf(st, s) - Removed(e)
    ensures NewPlace(st, e, t) < NewPlace(st, e, u) <==> Place(st, t) < Place(st, u)
  {
    if e.Close? && st.tasks[e.task].schedule == s {
      assert Place(st, e.task) != Place(st, t) && Place(st, e.task) != Place(st, u);
    }
  }

  /** A new task never takes a place that somebody has. */
  lemma SlotIsFree(st: State, e: Edit, t: Id)
    requires Valid(st) && Editable(st, e) && e.Insert? && t in TasksOf(st, e.schedule)
    ensures NewPlace(st, e, t) != Slot(st, e.schedule, e.at)
  {
    HighestIs(st, e.schedule);
  }

  /** No edit ever gives two tasks of a schedule the same sequence id. */
  lemma EditsKeepDistinct(st: State, e: Edit, s: Id)
    requires Valid(st) && Editable(st, e) && DistinctSequences(st, s)
    ensures DistinctSequences(Edited(st, e), s)
  {
    var st' := Edited(st, e);
    EditedTasks(st, e, s);
    forall t, u | t in TasksOf(st', s) && u in TasksOf(st', s) && t != u
      ensures Place(st', t) != Place(st', u)
    {
      if t in TasksOf(st, s) && u in TasksOf(st, s) {
        NewPlacesDiffer(st, e, s, t, u);
      } else if t in TasksOf(st, s) {
        SlotIsFree(st, e, t);
      } else {
        SlotIsFree(st, e, u);
      }
    }
  }

  lemma {:induction false} SequencesStayDistinct(sts: seq<State>, es: seq<Event>, s: Id, k: nat)
    requires Run(sts, es) && k < |sts| && DistinctSequences(sts[0], s)
    ensures DistinctSequences(sts[k], s)
  {
    if k > 0 {
      SequencesStayDistinct(sts, es, s, k - 1);
      if es[k - 1].Change? {
        EditsKeepDistinct(sts[k - 1], es[k - 1].edit, s);
      } else if es[k - 1] == Adjust(Drop(s)) {
        assert TasksOf(sts[k], s) == {};
      } else {
        PlacesKept(sts[k - 1], es[k - 1], s);
      }
    }
  }

  /** Every task sent before that is still there stands before the pending one. */
  ghost predicate Behind(st: State, s: Id, sent: seq<Id>)
    requires s in st.schedules
  {
    forall p, t | p in Due(st, s) && t in sent && t in TasksOf(st, s) :: Place(st, t) < Place(st, p)
  }

  /**
    What an edit must respect for that: moving the pending task needs a place
    after all that were sent, moving a sent task one before the pending place,
    and a whole new order must put the sent tasks first. Insertions and
    deletions need no care.
  */
  predicate KeepsBehindAt(st: State, e: Edit, s: Id, sent: seq<Id>, p: Id)
    requires Editable(st, e) && p in TasksOf(st, s)
  {
    match e
    case Move(u, to, _) =>
      st.tasks[u].schedule == s ==>
        if p == u then forall t | t in sent && t in TasksOf(st, s) :: Place(st, t) < Target(st, u, to)
        else u in sent ==> Target(st, u, to) < Place(st, p)
    case Reorder(schedule, order) =>
      schedule == s ==>
        (p in order
         && forall t | t in sent && t in TasksOf(st, s) :: t in order && Position(order, t) < Position(order, p))
    case _ => true
  }

  ghost predicate KeepsBehind(st: State, e: Edit, s: Id, sent: seq<Id>)
    requires Editable(st, e) && s in st.schedules
  {
    forall p | p in Due(st, s) && p !in Removed(e) :: p in TasksOf(st, s) && KeepsBehindAt(st, e, s, sent, p)
  }

  /** Every task sent before that is still there stands before this one. */
  ghost predicate BehindOne(st: State, s: Id, sent: seq<Id>, p: Id) {
    forall t | t in sent && t in TasksOf(st, s) :: Place(st, t) < Place(st, p)
  }

  /** ... and does so after an edit. */
  ghost predicate WillBeBehind(st: State, e: Edit, s: Id, sent: seq<Id>, p: Id)
    requires Editable(st, e) && p in st.tasks
  {
    forall t | t in sent && t in TasksOf(st, s) && t !in Removed(e) :: NewPlace(st, e, t) < NewPlace(st, e, p)
  }

  lemma MovesKeepBehindAtIff(st: State, e: Edit, s: Id, sent: seq<Id>, p: Id)
    requires Valid(st) && Editable(st, e) && e.Move? && st.tasks[e.task].schedule == s && DistinctSequences(st, s)
    requires p in TasksOf(st, s) && forall t | t in sent && t in TasksOf(st, s) :: Place(st, t) < Place(st, p)
    ensures (forall t | t in sent && t in TasksOf(st, s) :: NewPlace(st, e, t) < NewPlace(st, e, p))
      <==> KeepsBehindAt(st, e, s, sent, p)
  {
    var u := e.task;
    assert forall t | t in TasksOf(st, s) && t != u :: Place(st, t) != Place(st, u);
    if p != u && u in sent {
      assert Place(st, u) < Place(st, p);
      assert NewPlace(st, e, u) < NewPlace(st, e, p) <==> Target(st, u, e.to) < Place(st, p);
    }
    if p == u {
      forall t | t in sent && t in TasksOf(st, s)
        ensures NewPlace(st, e, t) < NewPlace(st, e, p) <==> Place(st, t) < Target(st, u, e.to)
      {
      }
    }
  }

  lemma KeepsBehindAtIff(st: State, e: Edit, s: Id, sent: seq<Id>, p: Id)
    requires Valid(st) && Editable(st, e) && (Touches(st, e, s) ==> DistinctSequences(st, s))
    requires p in TasksOf(st, s) - Removed(e)
    requires BehindOne(st, s, sent, p)
    ensures WillBeBehind(st, e, s, sent, p) <==> KeepsBehindAt(st, e, s, sent, p)
  {
    if !Touches(st, e, s) {
      UntouchedPlace(st, e, s, p);
      forall t | t in TasksOf(st, s)
        ensures NewPlace(st, e, t) == Place(st, t)
      {
        UntouchedPlace(st, e, s, t);
      }
    } else if e.Move? {
      MovesKeepBehindAtIff(st, e, s, sent, p);
    } else if e.Reorder? {
      assert forall t | t in TasksOf(st, s) :: t in Elements(e.order);
    } else {
      forall t | t in sent && t in TasksOf(st, s) && t !in Removed(e)
        ensures NewPlace(st, e, t) < NewPlace(st, e, p)
      {
        ShiftsKeepOrder(st, e, s, t, p);
      }
    }
  }

  /** An edit keeps the sent tasks behind the pending one exactly under this condition on the table before it. */
  lemma EditKeepsBehindIff(st: State, e: Edit, s: Id, sent: seq<Id>)
    requires Valid(st) && Editable(st, e) && s in st.schedules && Single(LineOf(st, s))
    requires Touches(st, e, s) ==> DistinctSequences(st, s)
    requires Behind(st, s, sent) && forall t | t in sent :: t <= st.lastTask
    ensures Behind(Edited(st, e), s, sent) <==> KeepsBehind(st, e, s, sent)
  {
    var st' := Edited(st, e);
    EditedDue(st, e, s);
    DueAreTasks(st, s);
    forall p | p in Due(st, s) && p !in Removed(e)
      ensures BehindOne(st', s, sent, p) <==> KeepsBehindAt(st, e, s, sent, p)
    {
      EditKeepsBehindOneIff(st, e, s, sent, p);
    }
    assert Behind(st', s, sent) <==> forall p | p in Due(st', s) :: BehindOne(st', s, sent, p);
  }

  lemma EditKeepsBehindOneIff(st: State, e: Edit, s: Id, sent: seq<Id>, p: Id)
    requires Valid(st) && Editable(st, e) && (Touches(st, e, s) ==> DistinctSequences(st, s))
    requires p in TasksOf(st, s) - Removed(e) && BehindOne(st, s, sent, p)
    requires forall t | t in sent :: t <= st.lastTask
    ensures BehindOne(Edited(st, e), s, sent, p) <==> KeepsBehindAt(st, e, s, sent, p)
  {
    KeepsBehindAtIff(st, e, s, sent, p);
    BehindAfterEdit(st, e, s, sent, p);
  }

  lemma BehindAfterEdit(st: State, e: Edit, s: Id, sent: seq<Id>, p: Id)
    requires Valid(st) && Editable(st, e) && p in TasksOf(st, s) - Removed(e) && forall t | t in sent :: t <= st.lastTask
    ensures BehindOne(Edited(st, e), s, sent, p) <==> WillBeBehind(st, e, s, sent, p)
  {
    var st' := Edited(st, e);
    EditedTasks(st, e, s);
    assert Place(st', p) == NewPlace(st, e, p);
    forall t | t in sent
      ensures t in TasksOf(st', s) <==> t in TasksOf(st, s) && t !in Removed(e)
      ensures t in TasksOf(st', s) ==> Place(st', t) == NewPlace(st, e, t)
    {
    }
  }

  /** The tasks sent are distinct, known, and behind the pending one. */
  ghost predicate Tidy(st: State, s: Id, sent: seq<Id>)
    requires s in st.schedules
  {
    Behind(st, s, sent) && Distinct(sent) && forall t | t in sent :: t <= st.lastTask
  }

  lemma TidySends(st: State, e: Event, s: Id, sent: seq<Id>, a: Id)
    requires Valid(st) && Enabled(st, e) && s in st.schedules && MayCome(st, e, s) && Sent(st, e, s) == Some(a)
    requires Tidy(st, s, sent) && (e.Start? ==> sent == [])
    ensures s in Next(st, e).schedules && Tidy(Next(st, e), s, sent + [a]) && a !in sent
  {
    HandsOver(st, e, s, a);
    PlacesKept(st, e, s);
    assert a !in sent by {
      assert !e.Start? ==> a in Due(st, s);
    }
  }

  lemma TidyStep(st: State, e: Event, s: Id, sent: seq<Id>)
    requires Valid(st) && Enabled(st, e) && s in st.schedules && MayCome(st, e, s) && Tidy(st, s, sent)
    requires e.Start? && st.tasks[e.first].schedule == s ==> sent == []
    requires e.Change? ==> KeepsBehind(st, e.edit, s, sent) && (Touches(st, e.edit, s) ==> DistinctSequences(st, s))
    ensures s in Next(st, e).schedules && Tidy(Next(st, e), s, MoreTasks(st, e, s, sent))
  {
    SchedulesStay(st, e, s);
    if e.Change? {
      EditKeepsBehindIff(st, e.edit, s, sent);
      EditedTasks(st, e.edit, s);
    } else if Sent(st, e, s) == None {
      StaysQuiet(st, e, s);
      PlacesKept(st, e, s);
    } else {
      TidySends(st, e, s, sent, Sent(st, e, s).value);
    }
  }

  /** Every edit during the chain keeps the sent tasks behind. */
  ghost predicate EditsKeepBehind(sts: seq<State>, es: seq<Event>, s: Id)
    requires Run(sts, es)
  {
    forall j | 0 <= j < |es| && es[j].Change? ::
      s in sts[j].schedules && KeepsBehind(sts[j], es[j].edit, s, SentTasks(sts, es, s, j))
  }

  /**
    A chain sends each task at most once, whatever is inserted or deleted, and
    whatever is moved without crossing the pending task.
  */
  lemma {:induction false} ChainSendsOnce(sts: seq<State>, es: seq<Event>, s: Id, k: nat)
    requires Chain(sts, es, s) && k < |sts| && DistinctSequences(sts[0], s) && EditsKeepBehind(sts, es, s)
    ensures s in sts[k].schedules && Tidy(sts[k], s, SentTasks(sts, es, s, k))
    ensures Distinct(SentTasks(sts, es, s, k))
  {
    if k > 0 {
      ChainSendsOnce(sts, es, s, k - 1);
      ChainIsSingle(sts, es, s, k - 1);
      SequencesStayDistinct(sts, es, s, k - 1);
      assert k == 1 ==> SentTasks(sts, es, s, k - 1) == [];
      TidyStep(sts[k - 1], es[k - 1], s, SentTasks(sts, es, s, k - 1));
    }
  }

  /** The sent tasks stay behind in all states of a chain exactly when every edit keeps them there. */
  lemma ChainBehindIff(sts: seq<State>, es: seq<Event>, s: Id)
    requires Chain(sts, es, s) && DistinctSequences(sts[0], s)
    ensures (forall k | 0 <= k < |sts| :: s in sts[k].schedules && Behind(sts[k], s, SentTasks(sts, es, s, k)))
      <==> EditsKeepBehind(sts, es, s)
  {
    if EditsKeepBehind(sts, es, s) {
      forall k | 0 <= k < |sts|
        ensures s in sts[k].schedules && Behind(sts[k], s, SentTasks(sts, es, s, k))
      {
        ChainSendsOnce(sts, es, s, k);
      }
    }
    if forall k | 0 <= k < |sts| :: s in sts[k].schedules && Behind(sts[k], s, SentTasks(sts, es, s, k)) {
      forall j | 0 <= j < |es| && es[j].Change?
        ensures s in sts[j].schedules && KeepsBehind(sts[j], es[j].edit, s, SentTasks(sts, es, s, j))
      {
        ChainIsSingle(sts, es, s, j);
        SequencesStayDistinct(sts, es, s, j);
        SentAreKnown(sts, es, s, j);
        assert Behind(sts[j + 1], s, SentTasks(sts, es, s, j + 1));
        EditKeepsBehindIff(sts[j], es[j].edit, s, SentTasks(sts, es, s, j));
      }
    }
  }

  lemma {:induction false} SentAreKnown(sts: seq<State>, es: seq<Event>, s: Id, k: nat)
    requires Chain(sts, es, s) && k < |sts|
    ensures Valid(sts[k]) && forall t | t in SentTasks(sts, es, s, k) :: t <= sts[k].lastTask
  {
    RunValid(sts, es, k);
    if k > 0 {
      SentAreKnown(sts, es, s, k - 1);
      if es[k - 1].Change? {
        EditedTasks(sts[k - 1], es[k - 1].edit, s);
      } else {
        PlacesKept(sts[k - 1], es[k - 1], s);
      }
    }
  }

  // ---------------------------------------------------------------------
  // Relative order and completeness
  // ---------------------------------------------------------------------

  /** Of the tasks sent, those that still exist stand in the order in which they were sent. */
  ghost predicate InOrder(st: State, s: Id, sent: seq<Id>) {
    forall i, j | 0 <= i < j < |sent| && sent[i] in TasksOf(st, s) && sent[j] in TasksOf(st, s) ::
      Place(st, sent[i]) < Place(st, sent[j])
  }

  /** The task was sent, or another one at its place. */
  predicate Taken(st: State, s: Id, t: Id, sent: seq<Id>) {
    exists u | u in sent :: u == t || (u in TasksOf(st, s) && Place(st, u) == Place(st, t))
  }

  /** Of the tasks there at the start, each that still exists was taken or is still to come. */
  ghost predicate Covered(st: State, s: Id, initial: set<Id>, sent: seq<Id>)
    requires s in st.schedules
  {
    forall t | t in initial && t in TasksOf(st, s) && !Taken(st, s, t, sent) ::
      exists p :: p in Due(st, s) && Place(st, p) <= Place(st, t)
  }

  /** Users insert and delete only, and sequence ids are distinct when they do. */
  ghost predicate Gentle(st: State, e: Event, s: Id)
    requires Valid(st) && Enabled(st, e)
  {
    e.Change? && Touches(st, e.edit, s) ==> Shifts(e.edit) && DistinctSequences(st, s)
  }

  /** ... and they do not delete the pending task. */
  ghost predicate Orderly(st: State, e: Event, s: Id)
    requires Valid(st) && Enabled(st, e) && s in st.schedules
  {
    Gentle(st, e, s) && (e.Change? ==> Due(st, s) !! Removed(e.edit))
  }

  lemma GentleKeepsBehind(st: State, e: Event, s: Id, sent: seq<Id>)
    requires Valid(st) && Enabled(st, e) && s in st.schedules && Gentle(st, e, s) && e.Change?
    ensures KeepsBehind(st, e.edit, s, sent)
  {
    DueAreTasks(st, s);
  }

  lemma TakenStays(st: State, st': State, s: Id, t: Id, sent: seq<Id>)
    requires t in TasksOf(st, s) && Taken(st, s, t, sent)
    requires forall u | u in TasksOf(st, s) && Place(st, u) == Place(st, t) :: u in TasksOf(st', s) && Place(st', u) == Place(st', t)
    ensures Taken(st', s, t, sent)
  {
  }

  lemma CoveredEdit(st: State, e: Event, s: Id, initial: set<Id>, sent: seq<Id>)
    requires Valid(st) && Enabled(st, e) && s in st.schedules && Single(LineOf(st, s)) && e.Change? && Orderly(st, e, s)
    requires Covered(st, s, initial, sent) && forall t | t in initial :: t <= st.lastTask
    ensures s in Next(st, e).schedules && Covered(Next(st, e), s, initial, sent)
  {
    var st', edit := Next(st, e), e.edit;
    EditedDue(st, edit, s);
    EditedTasks(st, edit, s);
    DueAreTasks(st, s);
    forall t | t in initial && t in TasksOf(st', s) && !Taken(st', s, t, sent)
      ensures exists p :: p in Due(st', s) && Place(st', p) <= Place(st', t)
    {
      SamePlaceAfter(st, edit, s, t);
      if Taken(st, s, t, sent) {
        TakenStays(st, st', s, t, sent);
      }
      var p :| p in Due(st, s) && Place(st, p) <= Place(st, t);
      SameOrderAfter(st, edit, s, t, p);
      assert p in Due(st', s);
    }
  }

  lemma SamePlaceAfter(st: State, edit: Edit, s: Id, t: Id)
    requires Valid(st) && Editable(st, edit) && t in TasksOf(st, s) && t !in Removed(edit)
    requires Touches(st, edit, s) ==> DistinctSequences(st, s)
    ensures forall u | u in TasksOf(st, s) && Place(st, u) == Place(st, t) ::
      u in TasksOf(Edited(st, edit), s) && Place(Edited(st, edit), u) == Place(Edited(st, edit), t)
  {
    EditedTasks(st, edit, s);
    forall u | u in TasksOf(st, s) && Place(st, u) == Place(st, t)
      ensures u in TasksOf(Edited(st, edit), s) && Place(Edited(st, edit), u) == Place(Edited(st, edit), t)
    {
      if !Touches(st, edit, s) {
        UntouchedPlace(st, edit, s, t);
        UntouchedPlace(st, edit, s, u);
      }
    }
  }

  lemma SameOrderAfter(st: State, edit: Edit, s: Id, t: Id, p: Id)
    requires Valid(st) && Editable(st, edit) && t in TasksOf(st, s) - Removed(edit) && p in TasksOf(st, s) - Removed(edit)
    requires Touches(st, edit, s) ==> Shifts(edit) && DistinctSequences(st, s)
    ensures NewPlace(st, edit, t) < NewPlace(st, edit, p) <==> Place(st, t) < Place(st, p)
  {
    if Touches(st, edit, s) {
      ShiftsKeepOrder(st, edit, s, t, p);
    } else {
      UntouchedPlace(st, edit, s, t);
      UntouchedPlace(st, edit, s, p);
    }
  }

  lemma StillToCome(st: State, e: Event, s: Id, initial: set<Id>, sent: seq<Id>, a: Id, t: Id)
    requires Valid(st) && Enabled(st, e) && s in st.schedules && MayCome(st, e, s) && Sent(st, e, s) == Some(a)
    requires e.Start? || Covered(st, s, initial, sent)
    requires t in initial && t in TasksOf(st, s) && !Taken(st, s, t, sent + [a])
    ensures t in Later(st, a)
  {
    HandsOver(st, e, s, a);
    assert a in sent + [a] && Place(st, t) != Place(st, a);
    assert forall u | u in sent :: u in sent + [a];
    assert !Taken(st, s, t, sent);
    if !e.Start? {
      var p :| p in Due(st, s) && Place(st, p) <= Place(st, t);
    }
  }

  lemma CoveredSends(st: State, e: Event, s: Id, initial: set<Id>, sent: seq<Id>, a: Id)
    requires Valid(st) && Enabled(st, e) && s in st.schedules && MayCome(st, e, s) && Sent(st, e, s) == Some(a)
    requires Smooth(st, e, s) && (e.Start? || Covered(st, s, initial, sent))
    ensures s in Next(st, e).schedules && Covered(Next(st, e), s, initial, sent + [a])
  {
    var st' := Next(st, e);
    HandsOver(st, e, s, a);
    PlacesKept(st, e, s);
    forall t | t in initial && t in TasksOf(st', s) && !Taken(st', s, t, sent + [a])
      ensures exists p :: p in Due(st', s) && Place(st', p) <= Place(st', t)
    {
      assert !Taken(st, s, t, sent + [a]);
      StillToCome(st, e, s, initial, sent, a, t);
      var n :| Due(st', s) == {n} && First(st, Later(st, a), Some(n));
      assert n in Due(st', s);
    }
  }

  lemma CoveredQuiet(st: State, e: Event, s: Id, initial: set<Id>, sent: seq<Id>)
    requires Valid(st) && Enabled(st, e) && s in st.schedules && MayCome(st, e, s) && Sent(st, e, s) == None && !e.Change?
    requires Smooth(st, e, s) && ((e.Start? && st.tasks[e.first].schedule == s) || Covered(st, s, initial, sent))
    ensures s in Next(st, e).schedules && Covered(Next(st, e), s, initial, sent)
  {
    StaysQuiet(st, e, s);
    PlacesKept(st, e, s);
    if e.Start? && st.tasks[e.first].schedule == s {
      assert e.first in Due(Next(st, e), s);
    }
  }

  /** All that a chain without failures keeps while users insert and delete. */
  ghost predicate Progress(st: State, s: Id, initial: set<Id>, sent: seq<Id>)
    requires s in st.schedules
  {
    Tidy(st, s, sent) && InOrder(st, s, sent) && Covered(st, s, initial, sent)
  }

  lemma InOrderStep(st: State, e: Event, s: Id, sent: seq<Id>)
    requires Valid(st) && Enabled(st, e) && s in st.schedules && MayCome(st, e, s)
    requires Tidy(st, s, sent) && InOrder(st, s, sent) && Gentle(st, e, s)
    requires e.Start? && st.tasks[e.first].schedule == s ==> sent == []
    ensures InOrder(Next(st, e), s, MoreTasks(st, e, s, sent))
  {
    var st', sent' := Next(st, e), MoreTasks(st, e, s, sent);
    if e.Change? {
      EditedTasks(st, e.edit, s);
      forall i, j | 0 <= i < j < |sent| && sent[i] in TasksOf(st', s) && sent[j] in TasksOf(st', s)
        ensures Place(st', sent[i]) < Place(st', sent[j])
      {
        assert sent[i] in sent && sent[j] in sent;
        SameOrderAfter(st, e.edit, s, sent[i], sent[j]);
      }
    } else {
      PlacesKept(st, e, s);
      if Sent(st, e, s) != None {
        InOrderSends(st, e, s, sent, Sent(st, e, s).value);
      }
    }
  }

  lemma InOrderSends(st: State, e: Event, s: Id, sent: seq<Id>, a: Id)
    requires Valid(st) && Enabled(st, e) && s in st.schedules && MayCome(st, e, s) && Sent(st, e, s) == Some(a)
    requires Behind(st, s, sent) && InOrder(st, s, sent) && (e.Start? ==> sent == [])
    ensures InOrder(st, s, sent + [a])
  {
    HandsOver(st, e, s, a);
    if !e.Start? {
      assert a in Due(st, s);
    }
    assert forall i | 0 <= i < |sent| :: sent[i] in sent;
  }

  /**
    While users only insert and delete -- anywhere in the list, even the pending
    task, and whatever fails -- a chain sends each task at most once, and the
    sent tasks that are left stand in the order in which they were sent.
  */
  lemma {:induction false} ChainSendsInOrder(sts: seq<State>, es: seq<Event>, s: Id, k: nat)
    requires Chain(sts, es, s) && k < |sts| && DistinctSequences(sts[0], s)
    requires forall j | 0 <= j < |es| && es[j].Change? && Touches(sts[j], es[j].edit, s) :: Shifts(es[j].edit)
    ensures s in sts[k].schedules && Tidy(sts[k], s, SentTasks(sts, es, s, k))
    ensures Distinct(SentTasks(sts, es, s, k)) && InOrder(sts[k], s, SentTasks(sts, es, s, k))
  {
    if k > 0 {
      var st, e, sent := sts[k - 1], es[k - 1], SentTasks(sts, es, s, k - 1);
      ChainSendsInOrder(sts, es, s, k - 1);
      ChainIsSingle(sts, es, s, k - 1);
      SequencesStayDistinct(sts, es, s, k - 1);
      assert k == 1 ==> sent == [];
      InOrderStep(st, e, s, sent);
      if e.Change? {
        GentleKeepsBehind(st, e, s, sent);
      }
      TidyStep(st, e, s, sent);
    }
  }

  lemma ProgressStep(st: State, e: Event, s: Id, initial: set<Id>, sent: seq<Id>)
    requires Valid(st) && Enabled(st, e) && s in st.schedules && MayCome(st, e, s)
    requires Smooth(st, e, s) && Orderly(st, e, s) && forall t | t in initial :: t <= st.lastTask
    requires Tidy(st, s, sent) && InOrder(st, s, sent)
    requires e.Start? && st.tasks[e.first].schedule == s ==> sent == []
    requires (e.Start? && st.tasks[e.first].schedule == s) || Covered(st, s, initial, sent)
    ensures s in Next(st, e).schedules && Progress(Next(st, e), s, initial, MoreTasks(st, e, s, sent))
  {
    if e.Change? {
      GentleKeepsBehind(st, e, s, sent);
      CoveredEdit(st, e, s, initial, sent);
    } else if Sent(st, e, s) == None {
      CoveredQuiet(st, e, s, initial, sent);
    } else {
      CoveredSends(st, e, s, initial, sent, Sent(st, e, s).value);
    }
    TidyStep(st, e, s, sent);
    InOrderStep(st, e, s, sent);
  }

  /** A chain without failures, during which users insert and delete. */
  ghost predicate OrderlyChain(sts: seq<State>, es: seq<Event>, s: Id) {
    && Chain(sts, es, s)
    && forall j | 0 <= j < |es| ::
      s in sts[j].schedules && Smooth(sts[j], es[j], s) && Orderly(sts[j], es[j], s)
  }

  lemma {:induction false} ChainProgress(sts: seq<State>, es: seq<Event>, s: Id, k: nat)
    requires OrderlyChain(sts, es, s) && 1 <= k < |sts|
    ensures s in sts[k].schedules && Progress(sts[k], s, TasksOf(sts[0], s), SentTasks(sts, es, s, k))
  {
    if k > 1 {
      ChainProgress(sts, es, s, k - 1);
    }
    ChainProgressStep(sts, es, s, k);
  }

  lemma ChainProgressStep(sts: seq<State>, es: seq<Event>, s: Id, k: nat)
    requires OrderlyChain(sts, es, s) && 1 <= k < |sts|
    requires k > 1 ==> s in sts[k - 1].schedules && Progress(sts[k - 1], s, TasksOf(sts[0], s), SentTasks(sts, es, s, k - 1))
    ensures s in sts[k].schedules && Progress(sts[k], s, TasksOf(sts[0], s), SentTasks(sts, es, s, k))
  {
    var st, e, sent := sts[k - 1], es[k - 1], SentTasks(sts, es, s, k - 1);
    ChainIsSingle(sts, es, s, k - 1);
    TaskIdsGrow(sts, es, s, k - 1);
    assert forall t | t in TasksOf(sts[0], s) :: t <= sts[0].lastTask;
    assert k == 1 ==> sent == [];
    ProgressStep(st, e, s, TasksOf(sts[0], s), sent);
  }

  lemma {:induction false} TaskIdsGrow(sts: seq<State>, es: seq<Event>, s: Id, k: nat)
    requires Chain(sts, es, s) && k < |sts|
    ensures sts[0].lastTask <= sts[k].lastTask
  {
    if k > 0 {
      TaskIdsGrow(sts, es, s, k - 1);
      if !es[k - 1].Change? {
        PlacesKept(sts[k - 1], es[k - 1], s);
      }
    }
  }

  /**
    A finished chain without failures has sent each task at most once and in
    order, and every task that was there at the start and still is -- even if
    others were inserted anywhere or deleted meanwhile.
  */
  lemma ChainRunsEverySurvivor(sts: seq<State>, es: seq<Event>, s: Id)
    requires OrderlyChain(sts, es, s) && DistinctSequences(sts[0], s)
    requires s in sts[|es|].schedules && Due(sts[|es|], s) == {}
    ensures var sent := SentTasks(sts, es, s, |es|);
      && Distinct(sent) && InOrder(sts[|es|], s, sent)
      && forall t | t in TasksOf(sts[0], s) && t in TasksOf(sts[|es|], s) :: t in sent
  {
    var n := |es|;
    var st, sent := sts[n], SentTasks(sts, es, s, n);
    ChainProgress(sts, es, s, n);
    SequencesStayDistinct(sts, es, s, n);
    forall t | t in TasksOf(sts[0], s) && t in TasksOf(st, s)
      ensures t in sent
    {
      assert Taken(st, s, t, sent);
      var u :| u in sent && (u == t || (u in TasksOf(st, s) && Place(st, u) == Place(st, t)));
    }
  }

  /** Nobody edits the schedule. */
  ghost predicate Untouched(sts: seq<State>, es: seq<Event>, s: Id)
    requires Run(sts, es)
  {
    forall j | 0 <= j < |es| && es[j].Change? :: !Touches(sts[j], es[j].edit, s)
  }

  lemma {:induction false} UntouchedTasks(sts: seq<State>, es: seq<Event>, s: Id, k: nat)
    requires Chain(sts, es, s) && Untouched(sts, es, s) && k < |sts|
    ensures TasksOf(sts[k], s) == TasksOf(sts[0], s)
    ensures forall t | t in TasksOf(sts[0], s) :: Place(sts[k], t) == Place(sts[0], t)
  {
    if k > 0 {
      var st, e := sts[k - 1], es[k - 1];
      UntouchedTasks(sts, es, s, k - 1);
      if e.Change? {
        EditedTasks(st, e.edit, s);
        forall t | t in TasksOf(st, s)
          ensures NewPlace(st, e.edit, t) == Place(st, t) && t !in Removed(e.edit)
        {
          UntouchedPlace(st, e.edit, s, t);
        }
      } else {
        PlacesKept(st, e, s);
      }
    }
  }

  lemma {:induction false} SentAreTasks(sts: seq<State>, es: seq<Event>, s: Id, k: nat)
    requires Chain(sts, es, s) && Untouched(sts, es, s) && k < |sts|
    ensures Elements(SentTasks(sts, es, s, k)) <= TasksOf(sts[0], s)
  {
    if k > 0 {
      SentAreTasks(sts, es, s, k - 1);
      UntouchedTasks(sts, es, s, k - 1);
      ChainIsSingle(sts, es, s, k - 1);
      if Sent(sts[k - 1], es[k - 1], s) != None {
        HandsOver(sts[k - 1], es[k - 1], s, Sent(sts[k - 1], es[k - 1], s).value);
      }
    }
  }

  /**
    A finished chain without failures and edits has sent tasks in ascending
    order, each at most once, and it has sent every task of the schedule exactly
    when their sequence ids are distinct: of tasks that share one, a single one runs.
  */
  lemma ChainRunsEveryTaskIffDistinct(sts: seq<State>, es: seq<Event>, s: Id)
    requires OrderlyChain(sts, es, s) && Untouched(sts, es, s)
    requires s in sts[|es|].schedules && Due(sts[|es|], s) == {}
    ensures var sent := SentTasks(sts, es, s, |es|);
      && Elements(sent) <= TasksOf(sts[0], s) && Distinct(sent) && InOrder(sts[0], s, sent)
      && (forall t | t in TasksOf(sts[0], s) :: Taken(sts[0], s, t, sent))
      && (Elements(sent) == TasksOf(sts[0], s) <==> DistinctSequences(sts[0], s))
  {
    var n := |es|;
    var sent := SentTasks(sts, es, s, n);
    ChainProgress(sts, es, s, n);
    UntouchedTasks(sts, es, s, n);
    SentAreTasks(sts, es, s, n);
    assert forall t | t in sent :: t in Elements(sent);
    forall t | t in TasksOf(sts[0], s)
      ensures Taken(sts[0], s, t, sent)
    {
      assert Taken(sts[n], s, t, sent);
    }
    AllSentIffDistinct(sts[0], s, sent);
  }

  lemma AllSentIffDistinct(st: State, s: Id, sent: seq<Id>)
    requires Elements(sent) <= TasksOf(st, s) && InOrder(st, s, sent)
    requires forall t | t in TasksOf(st, s) :: Taken(st, s, t, sent)
    ensures Elements(sent) == TasksOf(st, s) <==> DistinctSequences(st, s)
  {
    if Elements(sent) == TasksOf(st, s) {
      forall t, u | t in TasksOf(st, s) && u in TasksOf(st, s) && Place(st, t) == Place(st, u)
        ensures t == u
      {
        assert t in Elements(sent) && u in Elements(sent);
        var i, j :| 0 <= i < |sent| && 0 <= j < |sent| && sent[i] == t && sent[j] == u;
      }
    }
    if DistinctSequences(st, s) {
      forall t | t in TasksOf(st, s)
        ensures t in Elements(sent)
      {
        var u :| u in sent && (u == t || (u in TasksOf(st, s) && Place(st, u) == Place(st, t)));
      }
    }
  }

  // ---------------------------------------------------------------------
  // Termination
  // ---------------------------------------------------------------------

  /** The number of later tasks falls with every handover, so a chain nobody adds to ends. */
  lemma HandoverShrinks(st: State, task: Id, next: Id)
    requires Valid(st) && task in st.tasks && First(st, Later(st, task), Some(next))
    ensures |Later(st, next)| < |Later(st, task)|
  {
    assert Later(st, next) <= Later(st, task) - {next};
    SubsetSize(Later(st, next), Later(st, task) - {next});
  }

  /** The tasks sent were there at the start or came in meanwhile. */
  lemma {:induction false} SentWereThere(sts: seq<State>, es: seq<Event>, s: Id, k: nat)
    requires Chain(sts, es, s) && k < |sts|
    ensures sts[0].lastTask <= sts[k].lastTask
    ensures forall t | t in TasksOf(sts[k], s) || t in SentTasks(sts, es, s, k) ::
      t in TasksOf(sts[0], s) || sts[0].lastTask < t <= sts[k].lastTask
  {
    if k > 0 {
      var st, e := sts[k - 1], es[k - 1];
      SentWereThere(sts, es, s, k - 1);
      ChainIsSingle(sts, es, s, k - 1);
      WereThereStep(st, e, s, SentTasks(sts, es, s, k - 1));
    }
  }

  lemma WereThereStep(st: State, e: Event, s: Id, sent: seq<Id>)
    requires Valid(st) && Enabled(st, e) && s in st.schedules && MayCome(st, e, s)
    ensures st.lastTask <= Next(st, e).lastTask
    ensures forall t | t in TasksOf(Next(st, e), s) || t in MoreTasks(st, e, s, sent) ::
      t in TasksOf(st, s) || t in sent || st.lastTask < t <= Next(st, e).lastTask
  {
    if e.Change? {
      EditedTasks(st, e.edit, s);
    } else {
      PlacesKept(st, e, s);
      if Sent(st, e, s) != None {
        HandsOver(st, e, s, Sent(st, e, s).value);
      }
    }
  }

  /** The numbers after `low` up to `high`. */
  function Between(low: nat, high: nat): (r: set<Id>)
    ensures forall t: Id :: t in r <==> low < t <= high
  {
    if high <= low then {} else Between(low, high - 1) + {high}
  }

  lemma {:induction false} BetweenSize(low: nat, high: nat)
    requires low <= high
    ensures |Between(low, high)| == high - low
    decreases high
  {
    if low < high {
      var rest := Between(low, high - 1);
      BetweenSize(low, high - 1);
      assert high !in rest && Between(low, high) == rest + {high};
    }
  }

  /** A chain sends at most as many actions as there were tasks, and as task ids have been handed out since. */
  lemma ChainIsBounded(sts: seq<State>, es: seq<Event>, s: Id, k: nat)
    requires Chain(sts, es, s) && k < |sts| && DistinctSequences(sts[0], s) && EditsKeepBehind(sts, es, s)
    ensures |SentTasks(sts, es, s, k)| <= |TasksOf(sts[0], s)| + (sts[k].lastTask - sts[0].lastTask)
  {
    var sent := SentTasks(sts, es, s, k);
    var late := Between(sts[0].lastTask, sts[k].lastTask);
    ChainSendsOnce(sts, es, s, k);
    SentWereThere(sts, es, s, k);
    DistinctSize(sent);
    BetweenSize(sts[0].lastTask, sts[k].lastTask);
    SubsetSize(Elements(sent), TasksOf(sts[0], s) + late);
  }
}
