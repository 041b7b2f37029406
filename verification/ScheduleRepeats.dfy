/**
  What an edit in the wrong place leads to: from a state whose pending task is
  not ahead of those sent, workers that just go on repeat sequence ids or tasks
  (app/Jobs/Schedule/RunTaskJob.php,
  app/Http/Controllers/Api/Client/Servers/ScheduleTaskController.php).
*/
module ScheduleRepeats {
  import opened Wrappers
  import opened FiniteSets
  import opened Schedules
  import opened ScheduleRuns
  import opened ScheduleChains

  // ---------------------------------------------------------------------
  // Runs from their first event
  // ---------------------------------------------------------------------

  lemma MoreAfter(st: State, e: Event, s: Id, sent: seq<Id>, trace: seq<int>)
    requires Valid(st) && Enabled(st, e)
    ensures MoreTasks(st, e, s, sent) == sent + MoreTasks(st, e, s, [])
    ensures MoreIds(st, e, s, trace) == trace + MoreIds(st, e, s, [])
  {
  }

  /** The history of a run, after what was sent before it. */
  lemma HistoryGoesOn(sts: seq<State>, es: seq<Event>, s: Id, sent: seq<Id>, trace: seq<int>, k: nat)
    requires Run(sts, es) && 0 < k <= |es|
    ensures sent + SentTasks(sts, es, s, k) ==
      MoreTasks(sts[k - 1], es[k - 1], s, sent + SentTasks(sts, es, s, k - 1))
    ensures trace + Trace(sts, es, s, k) == MoreIds(sts[k - 1], es[k - 1], s, trace + Trace(sts, es, s, k - 1))
  {
  }

  /** What a run from `st` with first event `e` has sent after `k` more events. */
  lemma {:induction false} PrependedHistory(st: State, e: Event, sts: seq<State>, es: seq<Event>, s: Id, k: nat)
    requires Valid(st) && Enabled(st, e) && Run(sts, es) && sts[0] == Next(st, e) && k <= |es|
    requires Run([st] + sts, [e] + es)
    ensures SentTasks([st] + sts, [e] + es, s, k + 1) == MoreTasks(st, e, s, []) + SentTasks(sts, es, s, k)
    ensures Trace([st] + sts, [e] + es, s, k + 1) == MoreIds(st, e, s, []) + Trace(sts, es, s, k)
  {
    var sts', es' := [st] + sts, [e] + es;
    assert sts'[k] == (if k == 0 then st else sts[k - 1]) && es'[k] == if k == 0 then e else es[k - 1];
    if k == 0 {
      assert SentTasks(sts', es', s, 0) == [] && Trace(sts', es', s, 0) == [];
    } else {
      PrependedHistory(st, e, sts, es, s, k - 1);
      MoreAfter(sts[k - 1], es[k - 1], s, SentTasks(sts', es', s, k), Trace(sts', es', s, k));
      MoreAfter(sts[k - 1], es[k - 1], s, SentTasks(sts, es, s, k - 1), Trace(sts, es, s, k - 1));
    }
  }

  lemma PrependedRun(st: State, e: Event, sts: seq<State>, es: seq<Event>)
    requires Valid(st) && Enabled(st, e) && Run(sts, es) && sts[0] == Next(st, e)
    ensures Run([st] + sts, [e] + es)
  {
    var sts', es' := [st] + sts, [e] + es;
    forall k | 0 <= k < |es'|
      ensures Valid(sts'[k]) && Enabled(sts'[k], es'[k]) && sts'[k + 1] == Next(sts'[k], es'[k])
    {
      if k > 0 {
        assert sts'[k] == sts[k - 1] && es'[k] == es[k - 1] && sts'[k + 1] == sts[k];
      }
    }
  }

  lemma Prepend(st: State, e: Event, sts: seq<State>, es: seq<Event>, s: Id)
    requires Valid(st) && Enabled(st, e) && Run(sts, es) && sts[0] == Next(st, e)
    ensures Run([st] + sts, [e] + es) && ([st] + sts)[0] == st
    ensures SentTasks([st] + sts, [e] + es, s, |es| + 1) == MoreTasks(st, e, s, []) + SentTasks(sts, es, s, |es|)
    ensures Trace([st] + sts, [e] + es, s, |es| + 1) == MoreIds(st, e, s, []) + Trace(sts, es, s, |es|)
  {
    PrependedRun(st, e, sts, es);
    PrependedHistory(st, e, sts, es, s, |es|);
  }

  // ---------------------------------------------------------------------
  // Closing a gap
  // ---------------------------------------------------------------------

  // A schedule with two tasks: idle, with the first sent, with that one deleted, and finished.
  const IDLE := State(map[0 := Schedule(true, false, false)],
    map[1 := Task(0, 1, false, false), 2 := Task(0, 2, false, false)], 2, map[])
  const RUNNING := State(map[0 := Schedule(true, true, false)],
    map[1 := Task(0, 1, false, false), 2 := Task(0, 2, false, true)], 2, map[1 := Job(2, true)])
  const CLOSED := State(map[0 := Schedule(true, true, false)], map[2 := Task(0, 1, false, true)], 2, map[1 := Job(2, true)])
  const DONE := State(map[0 := Schedule(true, false, false)], map[2 := Task(0, 1, false, false)], 2, map[])

  const FIRST_SENT := Event.Start(1, true, true, false, Fine, Some(2), 1)
  const GAP_CLOSED := Change(Close(1))
  const SECOND_SENT := Event.Work(1, false, Fine, None, 2)

  lemma FirstIsSent()
    ensures Valid(IDLE) && Enabled(IDLE, FIRST_SENT) && Next(IDLE, FIRST_SENT) == RUNNING
    ensures Sent(IDLE, FIRST_SENT, 0) == Some(1) && LineOf(IDLE, 0).jobs == map[]
  {
    assert TasksOf(IDLE, 0) == {1, 2} && Later(IDLE, 1) == {2};
  }

  lemma GapIsClosed()
    ensures Valid(RUNNING) && Enabled(RUNNING, GAP_CLOSED) && Next(RUNNING, GAP_CLOSED) == CLOSED
  {
    assert Edited(RUNNING, Close(1)).tasks == CLOSED.tasks;
  }

  lemma SecondIsSent()
    ensures Valid(CLOSED) && Enabled(CLOSED, SECOND_SENT) && Next(CLOSED, SECOND_SENT) == DONE
    ensures Sent(CLOSED, SECOND_SENT, 0) == Some(2)
  {
    assert Later(CLOSED, 2) == {};
  }

  /** The run of the two later events. */
  lemma ClosedAndSent()
    ensures var sts, es := [RUNNING] + ([CLOSED] + [DONE]), [GAP_CLOSED] + ([SECOND_SENT] + []);
      Run(sts, es) && SentTasks(sts, es, 0, 2) == [2] && Trace(sts, es, 0, 2) == [1]
  {
    GapIsClosed();
    SecondIsSent();
    assert Run([DONE], []) && SentTasks([DONE], [], 0, 0) == [] && Trace([DONE], [], 0, 0) == [];
    Prepend(CLOSED, SECOND_SENT, [DONE], [], 0);
    Prepend(RUNNING, GAP_CLOSED, [CLOSED] + [DONE], [SECOND_SENT] + [], 0);
  }

  /**
    The condition can fail: tasks 1 and 2 have the ids 1 and 2. When task 1 has
    been sent and is then deleted through the API, task 2 is sent as id 1, too.
  */
  lemma ClosingTheGapRepeatsAnId()
    ensures var sts, es := [IDLE, RUNNING, CLOSED, DONE], [FIRST_SENT, GAP_CLOSED, SECOND_SENT];
      Chain(sts, es, 0) && Trace(sts, es, 0, 3) == [1, 1] && SentTasks(sts, es, 0, 3) == [1, 2]
  {
    var sts, es := [RUNNING] + ([CLOSED] + [DONE]), [GAP_CLOSED] + ([SECOND_SENT] + []);
    FirstIsSent();
    ClosedAndSent();
    Prepend(IDLE, FIRST_SENT, sts, es, 0);
    assert [IDLE] + sts == [IDLE, RUNNING, CLOSED, DONE];
    assert [FIRST_SENT] + es == [FIRST_SENT, GAP_CLOSED, SECOND_SENT];
    StartsAChain([IDLE] + sts, [FIRST_SENT] + es, 0);
  }

  lemma StartsAChain(sts: seq<State>, es: seq<Event>, s: Id)
    requires Run(sts, es) && |es| > 0 && s in sts[0].schedules && LineOf(sts[0], s).jobs == map[]
    requires es[0].Start? && sts[0].tasks[es[0].first].schedule == s
    requires forall j | 1 <= j < |es| :: !es[j].Start? && !es[j].Adjust?
    ensures Chain(sts, es, s)
  {
  }

  // ---------------------------------------------------------------------
  // Workers that go on
  // ---------------------------------------------------------------------

  /** Jobs of any outcome, and the switch of the panel. */
  predicate GoesOn(e: Event) {
    e.Work? || (e.Adjust? && e.setting.Configure?)
  }

  ghost predicate Continues(sts: seq<State>, es: seq<Event>, st: State) {
    Run(sts, es) && sts[0] == st && forall j | 0 <= j < |es| :: GoesOn(es[j])
  }

  lemma NothingYet(st: State, s: Id)
    requires Valid(st)
    ensures Continues([st], [], st) && SentTasks([st], [], s, 0) == [] && Trace([st], [], s, 0) == []
  {
  }

  lemma GoOnFrom(st: State, e: Event, sts: seq<State>, es: seq<Event>, s: Id)
    requires Valid(st) && Enabled(st, e) && GoesOn(e) && Continues(sts, es, Next(st, e))
    ensures Continues([st] + sts, [e] + es, st)
    ensures SentTasks([st] + sts, [e] + es, s, |es| + 1) == MoreTasks(st, e, s, []) + SentTasks(sts, es, s, |es|)
    ensures Trace([st] + sts, [e] + es, s, |es| + 1) == MoreIds(st, e, s, []) + Trace(sts, es, s, |es|)
  {
    Prepend(st, e, sts, es, s);
    assert forall j | 0 <= j < |es| + 1 :: GoesOn(([e] + es)[j]);
  }

  lemma {:induction false} FreshId(ids: set<Id>) returns (id: Id)
    ensures id !in ids
  {
    if ids == {} {
      id := 0;
    } else {
      var key: Id -> int := i => -i;
      LeastExists(ids, key);
      var top :| top in ids && forall i | i in ids :: -top <= -i;
      id := top + 1;
    }
  }

  /** A worker takes the pending job of an active schedule, and its action succeeds. */
  lemma OneMoreJob(st: State, s: Id, p: Id) returns (e: Event)
    requires Valid(st) && s in st.schedules && Single(LineOf(st, s)) && st.schedules[s].active && p in Due(st, s)
    ensures Enabled(st, e) && e.Work? && MayCome(st, e, s) && Smooth(st, e, s) && Sent(st, e, s) == Some(p)
    ensures s in Next(st, e).schedules && Next(st, e).schedules[s].active
  {
    var job :| job in LineOf(st, s).jobs && LineOf(st, s).jobs[job] == p;
    var id := FreshId(st.queue.Keys);
    var next := SomeFirst(st, Later(st, p));
    e := Work(job, false, Fine, next, id);
  }

  function Beyond(st: State, s: Id, place: int): set<Id> {
    set t | t in TasksOf(st, s) && place < Place(st, t)
  }

  /** Workers that go on reach every task from the pending one on. */
  lemma {:induction false} ReachesTask(st: State, s: Id, p: Id, t: Id) returns (sts: seq<State>, es: seq<Event>)
    requires Valid(st) && s in st.schedules && Single(LineOf(st, s)) && st.schedules[s].active
    requires DistinctSequences(st, s) && p in Due(st, s) && t in TasksOf(st, s) && Place(st, p) <= Place(st, t)
    ensures Continues(sts, es, st) && t in SentTasks(sts, es, s, |es|)
    decreases |Beyond(st, s, Place(st, p))|
  {
    var e := OneMoreJob(st, s, p);
    var st' := Next(st, e);
    HandsOver(st, e, s, p);
    PlacesKept(st, e, s);
    if t == p {
      NothingYet(st', s);
      sts, es := [st'], [];
    } else {
      assert Place(st, t) != Place(st, p) && t in Later(st, p);
      var n :| Due(st', s) == {n} && First(st, Later(st, p), Some(n));
      assert n in Beyond(st, s, Place(st, p)) && n !in Beyond(st', s, Place(st', n));
      SubsetSize(Beyond(st', s, Place(st', n)), Beyond(st, s, Place(st, p)) - {n});
      sts, es := ReachesTask(st', s, n, t);
    }
    GoOnFrom(st, e, sts, es, s);
    sts, es := [st] + sts, [e] + es;
  }

  /** The schedule is switched on, and nothing else changes for its chain. */
  lemma SwitchedOn(st: State, s: Id) returns (e: Event)
    requires Valid(st) && s in st.schedules
    ensures Enabled(st, e) && GoesOn(e) && Sent(st, e, s) == None
    ensures s in Next(st, e).schedules && Next(st, e).schedules[s].active
    ensures LineOf(Next(st, e), s) == LineOf(st, s) && SameList(st, Next(st, e), s)
  {
    e := Adjust(Configure(s, true, st.schedules[s].onlyWhenOnline));
    LineStep(st, e, s);
    PlacesKept(st, e, s);
  }

  // ---------------------------------------------------------------------
  // Tasks
  // ---------------------------------------------------------------------

  /** A task sent before that does not stand behind the pending one is sent again, if workers just go on. */
  lemma NotBehindRepeats(st: State, s: Id, sent: seq<Id>) returns (sts: seq<State>, es: seq<Event>)
    requires Valid(st) && s in st.schedules && Single(LineOf(st, s)) && DistinctSequences(st, s)
    requires !Behind(st, s, sent)
    ensures Continues(sts, es, st) && !Distinct(sent + SentTasks(sts, es, s, |es|))
  {
    var p, t :| p in Due(st, s) && t in sent && t in TasksOf(st, s) && Place(st, p) <= Place(st, t);
    DueAreTasks(st, s);
    var e := SwitchedOn(st, s);
    sts, es := ReachesTask(Next(st, e), s, p, t);
    GoOnFrom(st, e, sts, es, s);
    SharedElement(sent, SentTasks(sts, es, s, |es|), t);
    assert MoreTasks(st, e, s, []) + SentTasks(sts, es, s, |es|) == SentTasks(sts, es, s, |es|);
    sts, es := [st] + sts, [e] + es;
  }

  lemma SharedElement(a: seq<Id>, b: seq<Id>, t: Id)
    requires t in a && t in b
    ensures !Distinct(a + b)
  {
    var i, j :| 0 <= i < |a| && 0 <= j < |b| && a[i] == t && b[j] == t;
    assert (a + b)[i] == (a + b)[|a| + j];
  }

  /** While workers just go on, tidy stays tidy. */
  lemma {:induction false} GoingOnStaysTidy(sts: seq<State>, es: seq<Event>, s: Id, sent: seq<Id>, k: nat)
    requires Run(sts, es) && k < |sts| && forall j | 0 <= j < |es| :: GoesOn(es[j])
    requires s in sts[0].schedules && Single(LineOf(sts[0], s)) && Tidy(sts[0], s, sent)
    ensures Valid(sts[k]) && s in sts[k].schedules && Single(LineOf(sts[k], s))
    ensures Tidy(sts[k], s, sent + SentTasks(sts, es, s, k))
  {
    if k == 0 {
      assert sent + SentTasks(sts, es, s, 0) == sent;
    } else {
      var st, e := sts[k - 1], es[k - 1];
      GoingOnStaysTidy(sts, es, s, sent, k - 1);
      TidyStep(st, e, s, sent + SentTasks(sts, es, s, k - 1));
      HistoryGoesOn(sts, es, s, sent, [], k);
      StaysSingle(st, e, s);
    }
  }

  lemma StaysSingle(st: State, e: Event, s: Id)
    requires Valid(st) && Enabled(st, e) && s in st.schedules && MayCome(st, e, s) && !e.Change?
    ensures s in Next(st, e).schedules && Single(LineOf(Next(st, e), s))
  {
    if Sent(st, e, s) == None {
      StaysQuiet(st, e, s);
    } else {
      HandsOver(st, e, s, Sent(st, e, s).value);
    }
  }

  /** However the workers go on, no task is sent twice. */
  ghost predicate NeverRepeats(st: State, s: Id, sent: seq<Id>) {
    forall sts, es | Continues(sts, es, st) :: Distinct(sent + SentTasks(sts, es, s, |es|))
  }

  /** No task can be sent twice from here exactly when all that were sent stand behind the pending one. */
  lemma BehindIffNeverRepeats(st: State, s: Id, sent: seq<Id>)
    requires Valid(st) && s in st.schedules && Single(LineOf(st, s)) && DistinctSequences(st, s)
    requires Distinct(sent) && forall t | t in sent :: t <= st.lastTask
    ensures Behind(st, s, sent) <==> NeverRepeats(st, s, sent)
  {
    if Behind(st, s, sent) {
      forall sts, es | Continues(sts, es, st)
        ensures Distinct(sent + SentTasks(sts, es, s, |es|))
      {
        GoingOnStaysTidy(sts, es, s, sent, |es|);
      }
    } else {
      var sts, es := NotBehindRepeats(st, s, sent);
      assert Continues(sts, es, st);
    }
  }

  /**
    A chain sends each task at most once, however workers go on from any of its
    states, exactly when every edit keeps the sent tasks behind the pending one.
  */
  lemma ChainSendsOnceIff(sts: seq<State>, es: seq<Event>, s: Id)
    requires Chain(sts, es, s) && DistinctSequences(sts[0], s)
    ensures EditsKeepBehind(sts, es, s) <==>
      (forall k | 0 <= k < |sts| :: NeverRepeats(sts[k], s, SentTasks(sts, es, s, k)))
  {
    if EditsKeepBehind(sts, es, s) {
      forall k | 0 <= k < |sts|
        ensures NeverRepeats(sts[k], s, SentTasks(sts, es, s, k))
      {
        ChainSendsOnce(sts, es, s, k);
        ChainBehindAt(sts, es, s, k);
      }
    }
    if forall k | 0 <= k < |sts| :: NeverRepeats(sts[k], s, SentTasks(sts, es, s, k)) {
      forall k | 0 <= k < |sts|
        ensures s in sts[k].schedules && Behind(sts[k], s, SentTasks(sts, es, s, k))
      {
        assert NeverRepeats(sts[k], s, SentTasks(sts, es, s, k));
        SentSoFarAreDistinct(sts, es, s, k);
        ChainBehindAt(sts, es, s, k);
      }
      ChainBehindIff(sts, es, s);
    }
  }

  lemma SentSoFarAreDistinct(sts: seq<State>, es: seq<Event>, s: Id, k: nat)
    requires Run(sts, es) && k < |sts| && NeverRepeats(sts[k], s, SentTasks(sts, es, s, k))
    ensures Distinct(SentTasks(sts, es, s, k))
  {
    RunValid(sts, es, k);
    NothingYet(sts[k], s);
    assert Continues([sts[k]], [], sts[k]);
    assert SentTasks(sts, es, s, k) + [] == SentTasks(sts, es, s, k);
  }

  lemma ChainBehindAt(sts: seq<State>, es: seq<Event>, s: Id, k: nat)
    requires Chain(sts, es, s) && k < |sts| && DistinctSequences(sts[0], s) && Distinct(SentTasks(sts, es, s, k))
    ensures s in sts[k].schedules
    ensures Behind(sts[k], s, SentTasks(sts, es, s, k)) <==> NeverRepeats(sts[k], s, SentTasks(sts, es, s, k))
  {
    ChainIsSingle(sts, es, s, k);
    SequencesStayDistinct(sts, es, s, k);
    SentAreKnown(sts, es, s, k);
    BehindIffNeverRepeats(sts[k], s, SentTasks(sts, es, s, k));
  }

  /**
    The condition can fail for moves: a task that has been sent and is moved to
    the place of the pending one comes next after it, and is sent twice if
    workers just go on.
  */
  lemma MovedTaskIsSentAgain(st: State, s: Id, p: Id, u: Id, tolerant: bool, sent: seq<Id>)
    returns (sts: seq<State>, es: seq<Event>)
    requires Valid(st) && s in st.schedules && Single(LineOf(st, s)) && DistinctSequences(st, s)
    requires p in Due(st, s) && u in TasksOf(st, s) && u in sent && 1 <= Place(st, u) < Place(st, p)
    ensures var move := Move(u, Some(Place(st, p)), tolerant);
      && p in TasksOf(st, s) && p in Edited(st, move).tasks
      && First(Edited(st, move), Later(Edited(st, move), p), Some(u))
      && Run(sts, es) && sts[0] == st && |es| > 0 && es[0] == Change(move)
      && (forall j | 1 <= j < |es| :: GoesOn(es[j]))
      && !Distinct(sent + SentTasks(sts, es, s, |es|))
  {
    var move := Move(u, Some(Place(st, p)), tolerant);
    var st' := Edited(st, move);
    DueAreTasks(st, s);
    EditedTasks(st, move, s);
    EditedDue(st, move, s);
    EditsKeepDistinct(st, move, s);
    assert Place(st', u) == Place(st, p) && Place(st', p) == Place(st, p) - 1;
    MovedComesNext(st', s, p, u);
    sts, es := NotBehindRepeats(st', s, sent);
    Prepend(st, Change(move), sts, es, s);
    assert MoreTasks(st, Change(move), s, []) + SentTasks(sts, es, s, |es|) == SentTasks(sts, es, s, |es|);
    sts, es := [st] + sts, [Change(move)] + es;
  }

  lemma MovedComesNext(st: State, s: Id, p: Id, u: Id)
    requires p in TasksOf(st, s) && u in TasksOf(st, s) && Place(st, u) == Place(st, p) + 1
    ensures First(st, Later(st, p), Some(u))
  {
    forall t | t in Later(st, p)
      ensures Place(st, u) <= Place(st, t)
    {
    }
  }

  // ---------------------------------------------------------------------
  // Sequence ids
  // ---------------------------------------------------------------------

  /** If the pending id is not ahead, the next job repeats an id or falls behind one. */
  lemma NotAheadFallsBehind(st: State, s: Id, trace: seq<int>) returns (sts: seq<State>, es: seq<Event>)
    requires Valid(st) && s in st.schedules && Single(LineOf(st, s)) && !Ahead(st, s, trace)
    ensures Continues(sts, es, st) && !Increasing(trace + Trace(sts, es, s, |es|))
  {
    var p, x :| p in Due(st, s) && x in trace && Place(st, p) <= x;
    DueAreTasks(st, s);
    var e0 := SwitchedOn(st, s);
    var st1 := Next(st, e0);
    var e1 := OneMoreJob(st1, s, p);
    var st2 := Next(st1, e1);
    NothingYet(st2, s);
    GoOnFrom(st1, e1, [st2], [], s);
    GoOnFrom(st, e0, [st1] + [st2], [e1] + [], s);
    sts, es := [st] + ([st1] + [st2]), [e0] + ([e1] + []);
    assert Trace(sts, es, s, |es|) == [Place(st, p)];
    var i :| 0 <= i < |trace| && trace[i] == x;
    assert (trace + [Place(st, p)])[i] >= (trace + [Place(st, p)])[|trace|];
  }

  lemma {:induction false} GoingOnStaysAhead(sts: seq<State>, es: seq<Event>, s: Id, trace: seq<int>, k: nat)
    requires Run(sts, es) && k < |sts| && forall j | 0 <= j < |es| :: GoesOn(es[j])
    requires s in sts[0].schedules && Single(LineOf(sts[0], s)) && Ahead(sts[0], s, trace) && Increasing(trace)
    ensures Valid(sts[k]) && s in sts[k].schedules && Single(LineOf(sts[k], s))
    ensures Ahead(sts[k], s, trace + Trace(sts, es, s, k)) && Increasing(trace + Trace(sts, es, s, k))
  {
    if k == 0 {
      assert trace + Trace(sts, es, s, 0) == trace;
    } else {
      var st, e := sts[k - 1], es[k - 1];
      GoingOnStaysAhead(sts, es, s, trace, k - 1);
      AheadStep(st, e, s, trace + Trace(sts, es, s, k - 1));
      HistoryGoesOn(sts, es, s, [], trace, k);
    }
  }

  /** However the workers go on, the ids sent ascend. */
  ghost predicate AlwaysAscends(st: State, s: Id, trace: seq<int>) {
    forall sts, es | Continues(sts, es, st) :: Increasing(trace + Trace(sts, es, s, |es|))
  }

  /** The ids sent ascend from here, however workers go on, exactly when the pending one is ahead. */
  lemma AheadIffAlwaysAscends(st: State, s: Id, trace: seq<int>)
    requires Valid(st) && s in st.schedules && Single(LineOf(st, s)) && Increasing(trace)
    ensures Ahead(st, s, trace) <==> AlwaysAscends(st, s, trace)
  {
    if Ahead(st, s, trace) {
      forall sts, es | Continues(sts, es, st)
        ensures Increasing(trace + Trace(sts, es, s, |es|))
      {
        GoingOnStaysAhead(sts, es, s, trace, |es|);
      }
    } else {
      var sts, es := NotAheadFallsBehind(st, s, trace);
      assert Continues(sts, es, st);
    }
  }

  /**
    The ids that a chain sends ascend, however workers go on from any of its
    states, exactly when every edit keeps the pending id ahead.
  */
  lemma ChainAscendsIff(sts: seq<State>, es: seq<Event>, s: Id)
    requires Chain(sts, es, s)
    ensures EditsKeepAhead(sts, es, s) <==>
      (forall k | 0 <= k < |sts| :: AlwaysAscends(sts[k], s, Trace(sts, es, s, k)))
  {
    if EditsKeepAhead(sts, es, s) {
      forall k | 0 <= k < |sts|
        ensures AlwaysAscends(sts[k], s, Trace(sts, es, s, k))
      {
        ChainAscends(sts, es, s, k);
        ChainIsSingle(sts, es, s, k);
        AheadIffAlwaysAscends(sts[k], s, Trace(sts, es, s, k));
      }
    }
    if forall k | 0 <= k < |sts| :: AlwaysAscends(sts[k], s, Trace(sts, es, s, k)) {
      forall k | 0 <= k < |sts|
        ensures s in sts[k].schedules && Ahead(sts[k], s, Trace(sts, es, s, k))
      {
        assert AlwaysAscends(sts[k], s, Trace(sts, es, s, k));
        ChainIsSingle(sts, es, s, k);
        SentSoFarAscend(sts, es, s, k);
        AheadIffAlwaysAscends(sts[k], s, Trace(sts, es, s, k));
      }
      ChainAheadIff(sts, es, s);
    }
  }

  lemma SentSoFarAscend(sts: seq<State>, es: seq<Event>, s: Id, k: nat)
    requires Run(sts, es) && k < |sts| && AlwaysAscends(sts[k], s, Trace(sts, es, s, k))
    ensures Increasing(Trace(sts, es, s, k))
  {
    RunValid(sts, es, k);
    NothingYet(sts[k], s);
    assert Continues([sts[k]], [], sts[k]);
    assert Trace(sts, es, s, k) + [] == Trace(sts, es, s, k);
  }
}
