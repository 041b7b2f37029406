/**
  Runs of starts, jobs and edits of schedules: when the flags `is_processing`
  and `is_queued` tell what the queue holds
  (app/Jobs/Schedule/RunTaskJob.php, app/Services/Schedules/ProcessScheduleService.php).
*/
module ScheduleRuns {
  import opened Wrappers
  import opened FiniteSets
  import opened Schedules

  datatype Event =
    | Start(first: Id, now: bool, online: bool, busy: bool, outcome: Outcome, next: Option<Id>, id: Id)
    | Work(job: Id, busy: bool, outcome: Outcome, next: Option<Id>, id: Id)
    | Change(edit: Edit)
    | Adjust(setting: Setting)

  /** A job in the queue whose task still exists. */
  predicate Alive(st: State, job: Id) {
    job in st.queue && st.queue[job].task in st.tasks
  }

  predicate Enabled(st: State, e: Event)
    requires Valid(st)
  {
    match e
    case Start(first, _, _, _, _, next, id) =>
      && first in st.tasks && First(st, TasksOf(st, st.tasks[first].schedule), Some(first))
      && First(st, Later(st, first), next) && id !in st.queue
    case Work(job, _, _, next, id) =>
      && job in st.queue && id !in st.queue
      && (Alive(st, job) ==> First(st, Later(st, st.queue[job].task), next))
    case Change(edit) => Editable(st, edit)
    case Adjust(setting) => Adjustable(st, setting)
  }

  ghost function Next(st: State, e: Event): (st': State)
    requires Valid(st) && Enabled(st, e)
    ensures Valid(st')
  {
    match e
    case Start(first, now, online, busy, outcome, next, id) =>
      Started(st, first, now, online, busy, outcome, next, id)
    case Work(job, busy, outcome, next, id) => Worked(st, job, busy, outcome, next, id)
    case Change(edit) => Edited(st, edit)
    case Adjust(setting) => Adjusted(st, setting)
  }

  ghost predicate Run(sts: seq<State>, es: seq<Event>) {
    && |sts| == |es| + 1
    && Valid(sts[0])
    && forall k | 0 <= k < |es| ::
      Valid(sts[k]) && Enabled(sts[k], es[k]) && sts[k + 1] == Next(sts[k], es[k])
  }

  lemma {:induction false} RunValid(sts: seq<State>, es: seq<Event>, k: nat)
    requires Run(sts, es) && k < |sts|
    ensures Valid(sts[k])
  {
    if k > 0 {
      RunValid(sts, es, k - 1);
    }
  }

  // ---------------------------------------------------------------------
  // One schedule at a time
  // ---------------------------------------------------------------------

  /** What a schedule's chain looks like: its flag, its live jobs with their tasks, and the tasks marked queued. */
  datatype Line = Line(processing: bool, jobs: map<Id, Id>, queued: set<Id>)

  function LineOf(st: State, s: Id): Line
    requires s in st.schedules
  {
    Line(st.schedules[s].processing,
      map j | j in st.queue && Alive(st, j) && st.tasks[st.queue[j].task].schedule == s :: st.queue[j].task,
      set t | t in TasksOf(st, s) && st.tasks[t].queued)
  }

  /** A task leaves the chain: its successor is queued, or the chain ends. */
  function Passed(line: Line, task: Id, next: Option<Id>, id: Id): Line {
    match next
    case None => line.(processing := false, queued := line.queued - {task})
    case Some(n) => line.(queued := line.queued - {task} + {n}, jobs := line.jobs[id := n])
  }

  /** The successor that a job at a task really queues. */
  function Successor(st: State, job: Job, busy: bool, outcome: Outcome, next: Option<Id>): Option<Id>
    requires Valid(st) && job.task in st.tasks
  {
    if Proceeds(st, job, busy, outcome) then next else None
  }

  function StartedLine(st: State, e: Event, line: Line): Line
    requires Valid(st) && e.Start? && e.first in st.tasks
  {
    var begun := line.(processing := true, queued := line.queued + {e.first});
    if Held(st, e.first, e.online) then Passed(begun, e.first, None, e.id)
    else if !e.now then begun.(jobs := begun.jobs[e.id := e.first])
    else Passed(begun, e.first, Successor(st, Job(e.first, true), e.busy, e.outcome, e.next), e.id)
  }

  /** What an event does to one schedule. */
  function NextLine(st: State, e: Event, s: Id): Line
    requires Valid(st) && Enabled(st, e) && s in st.schedules
  {
    var line := LineOf(st, s);
    match e
    case Start(first, _, _, _, _, _, _) => if st.tasks[first].schedule == s then StartedLine(st, e, line) else line
    case Work(job, busy, outcome, next, id) =>
      if Alive(st, job) && st.tasks[st.queue[job].task].schedule == s
      then Passed(line.(jobs := line.jobs - {job}), st.queue[job].task,
        Successor(st, st.queue[job], busy, outcome, next), id)
      else line
    case Change(edit) => Line(line.processing,
      map j | j in line.jobs && line.jobs[j] !in Removed(edit) :: line.jobs[j], line.queued - Removed(edit))
    case Adjust(m) =>
      if m.Toggle? && m.schedule == s && m.active != st.schedules[s].active then line.(processing := false) else line
  }

  lemma QueuedLine(st: State, task: Id, queued: bool, s: Id)
    requires task in st.tasks && s in st.schedules
    ensures LineOf(SetQueued(st, task, queued), s) ==
      (if st.tasks[task].schedule != s then LineOf(st, s)
       else LineOf(st, s).(queued := if queued then LineOf(st, s).queued + {task} else LineOf(st, s).queued - {task}))
  {
    var st' := SetQueued(st, task, queued);
    assert forall j | j in st.queue :: Alive(st', j) <==> Alive(st, j);
    assert LineOf(st', s).jobs == LineOf(st, s).jobs;
  }

  lemma ProcessingLine(st: State, schedule: Id, processing: bool, s: Id)
    requires schedule in st.schedules && s in st.schedules
    ensures LineOf(SetProcessing(st, schedule, processing), s) ==
      if schedule == s then LineOf(st, s).(processing := processing) else LineOf(st, s)
  {
    var st' := SetProcessing(st, schedule, processing);
    assert forall j | j in st.queue :: Alive(st', j) <==> Alive(st, j);
    assert LineOf(st', s).jobs == LineOf(st, s).jobs;
  }

  lemma DispatchLine(st: State, job: Job, id: Id, s: Id)
    requires job.task in st.tasks && id !in st.queue && s in st.schedules
    ensures LineOf(st.(queue := st.queue[id := job]), s) ==
      if st.tasks[job.task].schedule == s then LineOf(st, s).(jobs := LineOf(st, s).jobs[id := job.task])
      else LineOf(st, s)
  {
    var st' := st.(queue := st.queue[id := job]);
    assert forall j | j in st.queue :: Alive(st', j) <==> Alive(st, j);
    assert Alive(st', id);
  }

  lemma TakeLine(st: State, id: Id, s: Id)
    requires id in st.queue && s in st.schedules
    ensures LineOf(st.(queue := st.queue - {id}), s) == LineOf(st, s).(jobs := LineOf(st, s).jobs - {id})
  {
    var st' := st.(queue := st.queue - {id});
    assert forall j | j in st.queue && j != id :: Alive(st', j) <==> Alive(st, j);
  }

  lemma RanLine(st: State, job: Job, busy: bool, outcome: Outcome, next: Option<Id>, id: Id, s: Id)
    requires Valid(st) && job.task in st.tasks && First(st, Later(st, job.task), next) && id !in st.queue
    requires s in st.schedules
    ensures LineOf(Ran(st, job, busy, outcome, next, id), s) ==
      if st.tasks[job.task].schedule == s
      then Passed(LineOf(st, s), job.task, Successor(st, job, busy, outcome, next), id) else LineOf(st, s)
  {
    var st1 := SetQueued(st, job.task, false);
    QueuedLine(st, job.task, false, s);
    if Goes(st, job, busy, outcome, next) {
      QueuedLine(st1, next.value, true, s);
      DispatchLine(SetQueued(st1, next.value, true), Job(next.value, job.manual), id, s);
    } else {
      ProcessingLine(st1, st.tasks[job.task].schedule, false, s);
    }
  }

  lemma BegunLine(st: State, first: Id, s: Id)
    requires Valid(st) && first in st.tasks && s in st.schedules
    ensures LineOf(Begun(st, first), s) ==
      if st.tasks[first].schedule == s
      then LineOf(st, s).(processing := true, queued := LineOf(st, s).queued + {first}) else LineOf(st, s)
  {
    QueuedLine(st, first, true, s);
    ProcessingLine(SetQueued(st, first, true), st.tasks[first].schedule, true, s);
  }

  lemma StartLine(st: State, e: Event, s: Id)
    requires Valid(st) && Enabled(st, e) && e.Start? && s in st.schedules
    ensures LineOf(Next(st, e), s) == NextLine(st, e, s)
  {
    var begun := Begun(st, e.first);
    BegunLine(st, e.first, s);
    if Held(st, e.first, e.online) {
      RanLine(begun, Job(e.first, true), true, e.outcome, e.next, e.id, s);
    } else if !e.now {
      DispatchLine(begun, Job(e.first, false), e.id, s);
    } else {
      RanLine(begun, Job(e.first, true), e.busy, e.outcome, e.next, e.id, s);
    }
  }

  lemma WorkLine(st: State, e: Event, s: Id)
    requires Valid(st) && Enabled(st, e) && e.Work? && s in st.schedules
    ensures LineOf(Next(st, e), s) == NextLine(st, e, s)
  {
    var taken := st.(queue := st.queue - {e.job});
    TakeLine(st, e.job, s);
    if Alive(st, e.job) {
      assert Later(taken, st.queue[e.job].task) == Later(st, st.queue[e.job].task);
      RanLine(taken, st.queue[e.job], e.busy, e.outcome, e.next, e.id, s);
    }
    if e.job !in LineOf(st, s).jobs {
      assert LineOf(st, s).jobs - {e.job} == LineOf(st, s).jobs;
    }
  }

  /** Tasks come and go unmarked, and no task changes its schedule or its mark. */
  ghost predicate SameMarks(st: State, st': State, removed: set<Id>) {
    && st'.queue == st.queue && st'.schedules == st.schedules
    && (forall t | t in st.tasks && t !in removed ::
      t in st'.tasks && st'.tasks[t].schedule == st.tasks[t].schedule && st'.tasks[t].queued == st.tasks[t].queued)
    && (forall t | t in st'.tasks && !(t in st.tasks && t !in removed) :: t > st.lastTask && !st'.tasks[t].queued)
  }

  lemma MarksLine(st: State, st': State, removed: set<Id>, s: Id)
    requires Valid(st) && SameMarks(st, st', removed) && s in st.schedules
    ensures var line := LineOf(st, s);
      LineOf(st', s) == Line(line.processing, map j | j in line.jobs && line.jobs[j] !in removed :: line.jobs[j],
        line.queued - removed)
  {
    var line := LineOf(st, s);
    forall j | j in st.queue
      ensures Alive(st', j) <==> Alive(st, j) && st.queue[j].task !in removed
    {
      assert st.queue[j].task <= st.lastTask;
    }
    assert LineOf(st', s).jobs == map j | j in line.jobs && line.jobs[j] !in removed :: line.jobs[j];
    assert LineOf(st', s).queued == line.queued - removed;
  }

  lemma EditLine(st: State, edit: Edit, s: Id)
    requires Valid(st) && Editable(st, edit) && s in st.schedules
    ensures LineOf(Edited(st, edit), s) == NextLine(st, Change(edit), s)
  {
    EditedRows(st, edit);
    MarksLine(st, Edited(st, edit), Removed(edit), s);
  }

  lemma AdjustLine(st: State, m: Setting, s: Id)
    requires Valid(st) && Adjustable(st, m) && s in st.schedules && m != Drop(s)
    ensures s in Adjusted(st, m).schedules && LineOf(Adjusted(st, m), s) == NextLine(st, Adjust(m), s)
  {
    var st' := Adjusted(st, m);
    assert forall t | t in st.tasks && st.tasks[t].schedule == s :: t in st'.tasks && st'.tasks[t] == st.tasks[t];
    assert LineOf(st', s).jobs == LineOf(st, s).jobs;
    assert LineOf(st', s).queued == LineOf(st, s).queued;
  }

  lemma OpenedLine(st: State, m: Setting)
    requires Valid(st) && Adjustable(st, m) && m.Open?
    ensures m.schedule in Adjusted(st, m).schedules && LineOf(Adjusted(st, m), m.schedule) == Line(false, map[], {})
  {
    assert LineOf(Adjusted(st, m), m.schedule).jobs == map[];
  }

  /** Schedules come and go only by name. */
  lemma SchedulesStay(st: State, e: Event, s: Id)
    requires Valid(st) && Enabled(st, e)
    ensures s in Next(st, e).schedules <==>
      (s in st.schedules && e != Adjust(Drop(s))) || (e.Adjust? && e.setting.Open? && e.setting.schedule == s)
  {
  }

  /** Events act on each schedule as on its line. */
  lemma LineStep(st: State, e: Event, s: Id)
    requires Valid(st) && Enabled(st, e) && s in st.schedules && e != Adjust(Drop(s))
    ensures s in Next(st, e).schedules && LineOf(Next(st, e), s) == NextLine(st, e, s)
  {
    SchedulesStay(st, e, s);
    match e {
      case Start(_, _, _, _, _, _, _) => StartLine(st, e, s);
      case Work(_, _, _, _, _) => WorkLine(st, e, s);
      case Change(edit) => EditLine(st, edit, s);
      case Adjust(setting) => AdjustLine(st, setting, s);
    }
  }

  // ---------------------------------------------------------------------
  // The flags
  // ---------------------------------------------------------------------

  /** Idle: no job, no queued task. Processing: one job, and exactly its task is queued. */
  ghost predicate Right(line: Line) {
    if line.processing then exists j, t :: line.jobs == map[j := t] && line.queued == {t}
    else line.jobs == map[] && line.queued == {}
  }

  ghost predicate FlagsOf(st: State, s: Id)
    requires s in st.schedules
  {
    Right(LineOf(st, s))
  }

  ghost predicate Flags(st: State) {
    forall s | s in st.schedules :: FlagsOf(st, s)
  }

  predicate Idle(st: State, s: Id)
    requires s in st.schedules
  {
    !LineOf(st, s).processing
  }

  /**
    A start of the schedule finds it idle, no edit deletes the task of its
    pending job, and the API switches it on or off only while it is idle.
  */
  predicate CarefulFor(st: State, e: Event, s: Id)
    requires Valid(st) && Enabled(st, e) && s in st.schedules
  {
    match e
    case Start(first, _, _, _, _, _, _) => st.tasks[first].schedule == s ==> Idle(st, s)
    case Change(edit) => forall j | j in LineOf(st, s).jobs :: LineOf(st, s).jobs[j] !in Removed(edit)
    case Adjust(m) => m.Toggle? && m.schedule == s ==> m.active == st.schedules[s].active || Idle(st, s)
    case Work(_, _, _, _, _) => true
  }

  predicate Careful(st: State, e: Event)
    requires Valid(st) && Enabled(st, e)
  {
    forall s | s in st.schedules :: CarefulFor(st, e, s)
  }

  lemma PassedIsRight(line: Line, j: Id, t: Id, next: Option<Id>, id: Id)
    requires line.jobs == map[] && line.queued == {t} && line.processing
    ensures Right(Passed(line, t, next, id))
    ensures Passed(line, t, next, id).processing <==> next.Some?
    ensures Passed(line, t, next, id).jobs == if next.Some? then map[id := next.value] else map[]
  {
    if next.Some? {
      assert Passed(line, t, next, id).jobs == map[id := next.value];
    }
  }

  lemma StartRightIff(st: State, e: Event, s: Id)
    requires Valid(st) && Enabled(st, e) && s in st.schedules && FlagsOf(st, s) && e.Start?
    requires st.tasks[e.first].schedule == s
    ensures Right(StartedLine(st, e, LineOf(st, s))) <==> Idle(st, s)
  {
    var line := LineOf(st, s);
    var begun := line.(processing := true, queued := line.queued + {e.first});
    if Idle(st, s) {
      assert begun.queued == {e.first};
      if Held(st, e.first, e.online) {
        PassedIsRight(begun, e.id, e.first, None, e.id);
      } else if !e.now {
        assert begun.jobs[e.id := e.first] == map[e.id := e.first];
      } else {
        PassedIsRight(begun, e.id, e.first, Successor(st, Job(e.first, true), e.busy, e.outcome, e.next), e.id);
      }
    } else {
      SecondChainIsWrong(st, e, s);
    }
  }

  lemma SecondChainIsWrong(st: State, e: Event, s: Id)
    requires Valid(st) && Enabled(st, e) && s in st.schedules && FlagsOf(st, s) && e.Start? && !Idle(st, s)
    requires st.tasks[e.first].schedule == s
    ensures !Right(StartedLine(st, e, LineOf(st, s)))
  {
    var line, line' := LineOf(st, s), StartedLine(st, e, LineOf(st, s));
    var j, t :| line.jobs == map[j := t] && line.queued == {t};
    assert j in line.jobs && j in st.queue && j != e.id;
    assert j in line'.jobs;
    if line'.processing {
      assert e.id in line'.jobs;
      forall i, u
        ensures line'.jobs != map[i := u]
      {
        assert i != j || i != e.id;
      }
    }
  }

  lemma WorkRight(st: State, e: Event, s: Id)
    requires Valid(st) && Enabled(st, e) && s in st.schedules && FlagsOf(st, s) && e.Work?
    ensures Right(NextLine(st, e, s))
    ensures Alive(st, e.job) && st.tasks[st.queue[e.job].task].schedule == s ==>
      var next := Successor(st, st.queue[e.job], e.busy, e.outcome, e.next);
      LineOf(st, s).processing && (NextLine(st, e, s).processing <==> next.Some?)
      && NextLine(st, e, s).jobs == if next.Some? then map[e.id := next.value] else map[]
  {
    if Alive(st, e.job) && st.tasks[st.queue[e.job].task].schedule == s {
      var line := LineOf(st, s);
      assert e.job in line.jobs;
      var j, t :| line.jobs == map[j := t] && line.queued == {t};
      assert j == e.job && line.jobs - {j} == map[];
      PassedIsRight(line.(jobs := line.jobs - {j}), j, t,
        Successor(st, st.queue[e.job], e.busy, e.outcome, e.next), e.id);
    }
  }

  lemma EditRightIff(st: State, edit: Edit, s: Id)
    requires Valid(st) && Editable(st, edit) && s in st.schedules && FlagsOf(st, s)
    ensures Right(NextLine(st, Change(edit), s)) <==> CarefulFor(st, Change(edit), s)
  {
    var line, line' := LineOf(st, s), NextLine(st, Change(edit), s);
    if line.processing {
      var j, t :| line.jobs == map[j := t] && line.queued == {t};
      assert j in line.jobs;
      if t in Removed(edit) {
        assert line'.jobs == map[];
        forall i, u: Id
          ensures line'.jobs != map[i := u]
        {
          assert i in map[i := u];
        }
      } else {
        assert line'.jobs == map[j := t] && line'.queued == {t};
      }
    } else {
      assert line'.jobs == map[] && line'.queued == {};
    }
  }

  /** Switching a schedule on or off through the API makes its flags right exactly when nothing of it is pending. */
  lemma SwitchIsRightIff(st: State, s: Id, online: bool)
    requires Valid(st) && s in st.schedules
    ensures var m := Toggle(s, !st.schedules[s].active, online);
      && s in Adjusted(st, m).schedules
      && (FlagsOf(Adjusted(st, m), s) <==> LineOf(st, s).jobs == map[] && LineOf(st, s).queued == {})
  {
    AdjustLine(st, Toggle(s, !st.schedules[s].active, online), s);
  }

  lemma ToggleRightIff(st: State, m: Setting, s: Id)
    requires Valid(st) && Adjustable(st, m) && s in st.schedules && m != Drop(s) && FlagsOf(st, s)
    ensures Right(NextLine(st, Adjust(m), s)) <==> CarefulFor(st, Adjust(m), s)
  {
    if m.Toggle? && m.schedule == s && m.active != st.schedules[s].active && !Idle(st, s) {
      var j, t :| LineOf(st, s).jobs == map[j := t];
      assert j in LineOf(st, s).jobs;
    }
  }

  /** One event keeps the flags of a schedule right exactly when it is careful. */
  lemma FlagsOfStepIff(st: State, e: Event, s: Id)
    requires Valid(st) && Enabled(st, e) && s in st.schedules && e != Adjust(Drop(s)) && FlagsOf(st, s)
    ensures s in Next(st, e).schedules
    ensures FlagsOf(Next(st, e), s) <==> CarefulFor(st, e, s)
  {
    LineStep(st, e, s);
    match e {
      case Start(first, _, _, _, _, _, _) =>
        if st.tasks[first].schedule == s {
          StartRightIff(st, e, s);
        }
      case Work(_, _, _, _, _) => WorkRight(st, e, s);
      case Change(edit) => EditRightIff(st, edit, s);
      case Adjust(setting) => ToggleRightIff(st, setting, s);
    }
  }

  lemma FlagsStepIff(st: State, e: Event)
    requires Valid(st) && Enabled(st, e) && Flags(st)
    ensures Flags(Next(st, e)) <==> Careful(st, e)
  {
    forall s | s in st.schedules && e != Adjust(Drop(s))
      ensures s in Next(st, e).schedules && (FlagsOf(Next(st, e), s) <==> CarefulFor(st, e, s))
    {
      assert FlagsOf(st, s);
      FlagsOfStepIff(st, e, s);
    }
    forall s | s in Next(st, e).schedules && s !in st.schedules
      ensures FlagsOf(Next(st, e), s)
    {
      SchedulesStay(st, e, s);
      OpenedLine(st, e.setting);
    }
    forall s | s in Next(st, e).schedules
      ensures s in st.schedules ==> e != Adjust(Drop(s))
    {
      SchedulesStay(st, e, s);
    }
  }

  lemma {:induction false} FlagsUpTo(sts: seq<State>, es: seq<Event>, k: nat)
    requires Run(sts, es) && k < |sts| && Flags(sts[0])
    requires forall j | 0 <= j < |es| :: Careful(sts[j], es[j])
    ensures Valid(sts[k]) && Flags(sts[k])
  {
    if k > 0 {
      FlagsUpTo(sts, es, k - 1);
      FlagsStepIff(sts[k - 1], es[k - 1]);
    }
  }

  /**
    In all states of a run, `is_processing` holds exactly while one live job of
    the schedule is pending, and exactly its task is `is_queued` -- if and only
    if chains start only on idle schedules, nobody deletes the task of a pending
    job, and nobody switches a processing schedule on or off through the API.
  */
  lemma FlagsHoldIff(sts: seq<State>, es: seq<Event>)
    requires Run(sts, es) && Flags(sts[0])
    ensures (forall k | 0 <= k < |sts| :: Flags(sts[k])) <==> (forall j | 0 <= j < |es| :: Careful(sts[j], es[j]))
  {
    if forall j | 0 <= j < |es| :: Careful(sts[j], es[j]) {
      forall k | 0 <= k < |sts|
        ensures Flags(sts[k])
      {
        FlagsUpTo(sts, es, k);
      }
    }
    if forall k | 0 <= k < |sts| :: Flags(sts[k]) {
      forall j | 0 <= j < |es|
        ensures Careful(sts[j], es[j])
      {
        assert Flags(sts[j]) && Flags(sts[j + 1]);
        FlagsStepIff(sts[j], es[j]);
      }
    }
  }

  /** A start keeps the flags right exactly when it finds its schedule idle. */
  lemma StartKeepsFlagsIffIdle(st: State, e: Event)
    requires Valid(st) && Enabled(st, e) && Flags(st) && e.Start?
    ensures Flags(Next(st, e)) <==> Idle(st, st.tasks[e.first].schedule)
  {
    FlagsStepIff(st, e);
  }

  predicate Deletes(e: Edit, t: Id) {
    e == Close(t) || e == Remove(t)
  }

  /**
    Deleting the task of a pending job, in either way, strands its schedule: it
    stays marked as processing with nothing queued and no live job, before and
    after a worker drops the dead one.
  */
  lemma DeletedPendingTaskStrandsSchedule(st: State, job: Id, edit: Edit, work: Event)
    requires Valid(st) && Flags(st) && Alive(st, job) && Deletes(edit, st.queue[job].task)
    requires work.Work? && work.job == job && work.id !in st.queue
    ensures var s := st.tasks[st.queue[job].task].schedule;
      var st1 := Next(st, Change(edit));
      && !Careful(st, Change(edit)) && Enabled(st1, work)
      && var st2 := Next(st1, work);
      && s in st1.schedules && LineOf(st1, s) == Line(true, map[], {})
      && s in st2.schedules && LineOf(st2, s) == Line(true, map[], {}) && job !in st2.queue
  {
    var s := st.tasks[st.queue[job].task].schedule;
    assert FlagsOf(st, s) && job in LineOf(st, s).jobs;
    var j, t :| LineOf(st, s).jobs == map[j := t] && LineOf(st, s).queued == {t};
    assert j == job && t == st.queue[job].task;
    LineStep(st, Change(edit), s);
    LineStep(Next(st, Change(edit)), work, s);
    assert !CarefulFor(st, Change(edit), s);
  }

  /** Switching a stranded schedule on or off through the API is the way out: it is idle, and right, again. */
  lemma SwitchFreesStrandedSchedule(st: State, s: Id, online: bool)
    requires Valid(st) && s in st.schedules && LineOf(st, s) == Line(true, map[], {})
    ensures var e := Adjust(Toggle(s, !st.schedules[s].active, online));
      && s in Next(st, e).schedules && Idle(Next(st, e), s) && FlagsOf(Next(st, e), s)
  {
    SwitchIsRightIff(st, s, online);
    LineStep(st, Adjust(Toggle(s, !st.schedules[s].active, online)), s);
  }

  /**
    Switching a schedule off and on again while its job is pending makes it look
    idle: the next queued start finds it so, and then two chains run at once.
  */
  lemma SwitchWhilePendingAdmitsASecondChain(st: State, s: Id, job: Id, start: Event)
    requires Valid(st) && s in st.schedules && FlagsOf(st, s) && job in LineOf(st, s).jobs
    requires start.Start? && !start.now && start.first in st.tasks && st.tasks[start.first].schedule == s
    requires Enabled(st, start) && !Held(st, start.first, start.online)
    ensures var row := st.schedules[s];
      var off := Adjust(Toggle(s, !row.active, row.onlyWhenOnline));
      var st1 := Next(st, off);
      && s in st1.schedules && !CarefulFor(st, off, s) && !FlagsOf(st1, s)
      && var on := Adjust(Toggle(s, row.active, row.onlyWhenOnline));
      && Enabled(st1, on)
      && var st2 := Next(st1, on);
      && s in st2.schedules && Idle(st2, s) && st2.schedules[s].active == row.active && Enabled(st2, start)
      && var st3 := Next(st2, start);
      && s in st3.schedules && LineOf(st3, s).jobs.Keys == {job, start.id}
  {
    var row := st.schedules[s];
    var off := Adjust(Toggle(s, !row.active, row.onlyWhenOnline));
    var on := Adjust(Toggle(s, row.active, row.onlyWhenOnline));
    var st1 := Next(st, off);
    var st2 := Next(st1, on);
    var j, t :| LineOf(st, s).jobs == map[j := t];
    assert j == job;
    LineStep(st, off, s);
    LineStep(st1, on, s);
    SameTasksEnableStart(st, st2, start);
    LineStep(st2, start, s);
    FlagsOfStepIff(st, off, s);
  }

  lemma SameTasksEnableStart(st: State, st': State, start: Event)
    requires Valid(st) && Valid(st') && st'.tasks == st.tasks && st'.queue == st.queue
    requires start.Start? && Enabled(st, start)
    ensures Enabled(st', start)
  {
    var s := st.tasks[start.first].schedule;
    assert TasksOf(st', s) == TasksOf(st, s) && Later(st', start.first) == Later(st, start.first);
  }

  // ---------------------------------------------------------------------
  // Handing on and ending
  // ---------------------------------------------------------------------

  /** The action got through, or could not be sent and the task allows for that. */
  predicate Passes(row: Task, outcome: Outcome) {
    match outcome
    case Fine => true
    case ConnectionError => row.continueOnFailure
    case OtherError => false
  }

  /** No job has come, the task is not queued, and its schedule not processing. */
  ghost predicate Completes(st: State, st': State, task: Id)
    requires Valid(st) && task in st.tasks
  {
    var s := st.tasks[task].schedule;
    && st'.queue == st.queue && st'.lastTask == st.lastTask
    && st'.tasks == st.tasks[task := st.tasks[task].(queued := false)]
    && st'.schedules == st.schedules[s := st.schedules[s].(processing := false)]
  }

  /** The task is not queued any more, but the nearest later one is, with a job as manual as the one before. */
  ghost predicate HandsOn(st: State, st': State, job: Job, next: Id, id: Id)
    requires Valid(st) && job.task in st.tasks
  {
    var row := st.tasks[job.task];
    && next in st.tasks && st.tasks[next].schedule == row.schedule && row.sequence < st.tasks[next].sequence
    && (forall u | u in st.tasks && st.tasks[u].schedule == row.schedule && row.sequence < st.tasks[u].sequence ::
      st.tasks[next].sequence <= st.tasks[u].sequence)
    && st'.queue == st.queue[id := Job(next, job.manual)] && st'.lastTask == st.lastTask
    && st'.tasks == st.tasks[job.task := row.(queued := false)][next := st.tasks[next].(queued := true)]
    && st'.schedules == st.schedules
  }

  predicate IsLast(st: State, task: Id)
    requires task in st.tasks
  {
    forall u | u in st.tasks && st.tasks[u].schedule == st.tasks[task].schedule ::
      st.tasks[u].sequence <= st.tasks[task].sequence
  }

  lemma LastIff(st: State, task: Id)
    requires task in st.tasks
    ensures IsLast(st, task) <==> Later(st, task) == {}
  {
    assert forall u | u in st.tasks && st.tasks[u].schedule == st.tasks[task].schedule
      && st.tasks[task].sequence < st.tasks[u].sequence :: u in Later(st, task);
  }

  lemma RanHandsOnIff(st: State, job: Job, busy: bool, outcome: Outcome, next: Option<Id>, id: Id)
    requires Valid(st) && job.task in st.tasks && First(st, Later(st, job.task), next)
    ensures var st', row := Ran(st, job, busy, outcome, next, id), st.tasks[job.task];
      if (st.schedules[row.schedule].active || job.manual) && !busy && Passes(row, outcome) && !IsLast(st, job.task)
      then next.Some? && HandsOn(st, st', job, next.value, id)
      else Completes(st, st', job.task)
  {
    LastIff(st, job.task);
    assert forall u | u in st.tasks && st.tasks[u].schedule == st.tasks[job.task].schedule
      && st.tasks[job.task].sequence < st.tasks[u].sequence :: u in Later(st, job.task);
  }

  /**
    A job hands on to the nearest later task exactly when the schedule is active
    or the job manual, the server has no status, the action passes and such a
    task exists. Otherwise its schedule is complete. It touches nothing else.
  */
  lemma JobHandsOnIff(st: State, e: Event)
    requires Valid(st) && Enabled(st, e) && e.Work? && Alive(st, e.job)
    ensures var job, st' := st.queue[e.job], Next(st, e);
      var row, taken := st.tasks[job.task], st.(queue := st.queue - {e.job});
      if (st.schedules[row.schedule].active || job.manual) && !e.busy && Passes(row, e.outcome) && !IsLast(st, job.task)
      then e.next.Some? && HandsOn(taken, st', job, e.next.value, e.id)
      else Completes(taken, st', job.task)
  {
    var taken := st.(queue := st.queue - {e.job});
    assert Later(taken, st.queue[e.job].task) == Later(st, st.queue[e.job].task);
    assert IsLast(taken, st.queue[e.job].task) <==> IsLast(st, st.queue[e.job].task);
    RanHandsOnIff(taken, st.queue[e.job], e.busy, e.outcome, e.next, e.id);
  }

  /**
    A start takes a task with the smallest sequence id and marks it and its
    schedule. It is over at once when the server has to be online and is not; it
    queues the task when it may wait, and otherwise runs it as a manual job.
  */
  lemma StartHandsOnIff(st: State, e: Event)
    requires Valid(st) && Enabled(st, e) && e.Start?
    ensures var row, st' := st.tasks[e.first], Next(st, e);
      var schedule := st.schedules[row.schedule];
      var begun := st.(tasks := st.tasks[e.first := row.(queued := true)],
        schedules := st.schedules[row.schedule := schedule.(processing := true)]);
      && (forall u | u in st.tasks && st.tasks[u].schedule == row.schedule :: row.sequence <= st.tasks[u].sequence)
      && if schedule.onlyWhenOnline && !e.online then Completes(begun, st', e.first)
        else if !e.now then st' == begun.(queue := st.queue[e.id := Job(e.first, false)])
        else if !e.busy && Passes(row, e.outcome) && !IsLast(st, e.first)
        then e.next.Some? && HandsOn(begun, st', Job(e.first, true), e.next.value, e.id)
        else Completes(begun, st', e.first)
  {
    var begun := Begun(st, e.first);
    assert forall u | u in st.tasks && st.tasks[u].schedule == st.tasks[e.first].schedule ::
      u in TasksOf(st, st.tasks[e.first].schedule);
    if !Held(st, e.first, e.online) && e.now {
      LastIff(st, e.first);
      LastIff(begun, e.first);
      RanHandsOnIff(begun, Job(e.first, true), e.busy, e.outcome, e.next, e.id);
    }
  }

  /**
    When a job ends its chain: the schedule is inactive and the run not manual,
    the server has a status, the action does not pass, or no task is left. In all
    of these cases, and no others, the schedule is idle again, with no job
    pending and no task queued.
  */
  lemma ChainEndsIff(st: State, e: Event)
    requires Valid(st) && Enabled(st, e) && e.Work? && Alive(st, e.job)
    requires FlagsOf(st, st.tasks[st.queue[e.job].task].schedule)
    ensures var job := st.queue[e.job];
      var row := st.tasks[job.task];
      var s := row.schedule;
      var ends := (!st.schedules[s].active && !job.manual) || e.busy || !Passes(row, e.outcome) || IsLast(st, job.task);
      && s in Next(st, e).schedules
      && (ends <==> LineOf(Next(st, e), s) == Line(false, map[], {}))
      && (!ends <==> exists n :: n in Later(st, job.task) && LineOf(Next(st, e), s) == Line(true, map[e.id := n], {n}))
  {
    var job := st.queue[e.job];
    var s := st.tasks[job.task].schedule;
    LineStep(st, e, s);
    WorkRight(st, e, s);
    LastIff(st, job.task);
    var line' := LineOf(Next(st, e), s);
    if Proceeds(st, job, e.busy, e.outcome) && e.next.Some? {
      var j, t :| line'.jobs == map[j := t] && line'.queued == {t};
      assert e.id in line'.jobs;
      assert line' == Line(true, map[e.id := e.next.value], {e.next.value});
    }
  }

  /**
    When a chain ends at its start: the server must be online and is not, or the
    first task runs at once and the server has a status, the action does not
    pass, or it is the only place in the list. The schedule is then idle again.
  */
  lemma StartEndsIff(st: State, e: Event)
    requires Valid(st) && Enabled(st, e) && e.Start?
    requires FlagsOf(st, st.tasks[e.first].schedule) && Idle(st, st.tasks[e.first].schedule)
    ensures var row := st.tasks[e.first];
      var s := row.schedule;
      var ends := (st.schedules[s].onlyWhenOnline && !e.online)
        || (e.now && (e.busy || !Passes(row, e.outcome) || IsLast(st, e.first)));
      && s in Next(st, e).schedules && FlagsOf(Next(st, e), s)
      && (Idle(Next(st, e), s) <==> ends)
      && (!ends ==> LineOf(Next(st, e), s).jobs.Keys == {e.id})
  {
    var s := st.tasks[e.first].schedule;
    LineStep(st, e, s);
    StartRightIff(st, e, s);
    LastIff(st, e.first);
  }
}
