/**
  Scheduled tasks: a schedule queues its first task, and every job queues the
  task after its own until the chain ends
  (app/Services/Schedules/ProcessScheduleService.php, app/Jobs/Schedule/RunTaskJob.php),
  while users edit schedules and their lists of tasks
  (app/Http/Controllers/Api/Client/Servers/ScheduleController.php and ScheduleTaskController.php).
*/
module Schedules {
  import opened Wrappers
  import opened FiniteSets

  type Id = nat

  datatype Task = Task(schedule: Id, sequence: int, continueOnFailure: bool, queued: bool)
  datatype Schedule = Schedule(active: bool, processing: bool, onlyWhenOnline: bool)
  datatype Job = Job(task: Id, manual: bool)

  /** The tables of schedules and tasks, the last task id handed out, and the jobs waiting in the queue. */
  datatype State = State(schedules: map<Id, Schedule>, tasks: map<Id, Task>, lastTask: Id, queue: map<Id, Job>)

  /** How the daemon takes the action of a task. */
  datatype Outcome = Fine | ConnectionError | OtherError

  /** A job may be for a task that has been deleted in the meantime. */
  ghost predicate Valid(st: State) {
    && (forall t | t in st.tasks :: st.tasks[t].schedule in st.schedules && t <= st.lastTask)
    && (forall j | j in st.queue :: st.queue[j].task <= st.lastTask)
  }

  function TasksOf(st: State, schedule: Id): set<Id> {
    set t | t in st.tasks && st.tasks[t].schedule == schedule
  }

  /** The tasks of the same schedule with a larger sequence id. */
  function Later(st: State, task: Id): set<Id>
    requires task in st.tasks
  {
    set t | t in TasksOf(st, st.tasks[task].schedule) && st.tasks[task].sequence < st.tasks[t].sequence
  }

  /** One of the tasks with the smallest sequence id, if there are any. */
  predicate First(st: State, tasks: set<Id>, t: Option<Id>)
    requires tasks <= st.tasks.Keys
  {
    match t
    case None => tasks == {}
    case Some(x) => x in tasks && forall u | u in tasks :: st.tasks[x].sequence <= st.tasks[u].sequence
  }

  lemma FirstExists(st: State, tasks: set<Id>)
    requires tasks <= st.tasks.Keys && tasks != {}
    ensures exists t :: First(st, tasks, Some(t))
  {
    LeastExists(tasks, t => if t in st.tasks then st.tasks[t].sequence else 0);
    var t :| t in tasks && forall u | u in tasks :: st.tasks[t].sequence <= st.tasks[u].sequence;
    assert First(st, tasks, Some(t));
  }

  lemma SomeFirst(st: State, tasks: set<Id>) returns (t: Option<Id>)
    requires tasks <= st.tasks.Keys
    ensures First(st, tasks, t)
  {
    if tasks == {} {
      t := None;
    } else {
      FirstExists(st, tasks);
      t :| First(st, tasks, t);
    }
  }

  // ---------------------------------------------------------------------
  // What a job and a start do
  // ---------------------------------------------------------------------

  function SetQueued(st: State, task: Id, queued: bool): State
    requires task in st.tasks
  {
    st.(tasks := st.tasks[task := st.tasks[task].(queued := queued)])
  }

  function SetProcessing(st: State, schedule: Id, processing: bool): State
    requires schedule in st.schedules
  {
    st.(schedules := st.schedules[schedule := st.schedules[schedule].(processing := processing)])
  }

  /** The end of a chain at one of its tasks. */
  function Ended(st: State, task: Id): State
    requires Valid(st) && task in st.tasks
  {
    SetProcessing(SetQueued(st, task, false), st.tasks[task].schedule, false)
  }

  /** The job sends its action to the daemon. */
  predicate Sends(st: State, job: Job, busy: bool)
    requires Valid(st) && job.task in st.tasks
  {
    (st.schedules[st.tasks[job.task].schedule].active || job.manual) && !busy
  }

  predicate Tolerated(task: Task, outcome: Outcome) {
    outcome == Fine || (outcome == ConnectionError && task.continueOnFailure)
  }

  /** A job at whose end the chain goes on if there is a later task. */
  predicate Proceeds(st: State, job: Job, busy: bool, outcome: Outcome)
    requires Valid(st) && job.task in st.tasks
  {
    Sends(st, job, busy) && Tolerated(st.tasks[job.task], outcome)
  }

  /** The chain goes on: the job proceeds and a task is left. */
  predicate Goes(st: State, job: Job, busy: bool, outcome: Outcome, next: Option<Id>)
    requires Valid(st) && job.task in st.tasks
  {
    Proceeds(st, job, busy, outcome) && next.Some?
  }

  /** A task hands over to its successor; without one the chain ends. */
  function Handed(st: State, job: Job, next: Option<Id>, id: Id): (st': State)
    requires Valid(st) && job.task in st.tasks && First(st, Later(st, job.task), next)
    ensures Valid(st')
  {
    match next
    case None => Ended(st, job.task)
    case Some(n) =>
      var marked := SetQueued(SetQueued(st, job.task, false), n, true);
      marked.(queue := st.queue[id := Job(n, job.manual)])
  }

  /** The state after a job, including the clean-up after an exception. */
  function Ran(st: State, job: Job, busy: bool, outcome: Outcome, next: Option<Id>, id: Id): (st': State)
    requires Valid(st) && job.task in st.tasks && First(st, Later(st, job.task), next)
    ensures Valid(st')
  {
    if !Goes(st, job, busy, outcome, next) then Ended(st, job.task) else Handed(st, job, next, id)
  }

  /** The flags of a chain that begins with a task. */
  function Begun(st: State, first: Id): (st': State)
    requires Valid(st) && first in st.tasks
    ensures Valid(st') && first in st'.tasks && Later(st', first) == Later(st, first)
  {
    SetProcessing(SetQueued(st, first, true), st.tasks[first].schedule, true)
  }

  /** The schedule waits for its server to be online. */
  predicate Held(st: State, first: Id, online: bool)
    requires Valid(st) && first in st.tasks
  {
    st.schedules[st.tasks[first].schedule].onlyWhenOnline && !online
  }

  /** The first job of a chain is dropped, queued, or run at once. */
  function Launched(st: State, first: Id, now: bool, online: bool, busy: bool, outcome: Outcome,
      next: Option<Id>, id: Id): (st': State)
    requires Valid(st) && first in st.tasks && First(st, Later(st, first), next)
    ensures Valid(st')
  {
    if Held(st, first, online) then Ended(st, first)
    else if !now then st.(queue := st.queue[id := Job(first, false)])
    else Ran(st, Job(first, true), busy, outcome, next, id)
  }

  /** A start that found a first task. */
  function Started(st: State, first: Id, now: bool, online: bool, busy: bool, outcome: Outcome,
      next: Option<Id>, id: Id): (st': State)
    requires Valid(st) && first in st.tasks && First(st, Later(st, first), next)
    ensures Valid(st')
  {
    Launched(Begun(st, first), first, now, online, busy, outcome, next, id)
  }

  /** A job whose task is gone cannot be restored, and is dropped without running anything. */
  function Worked(st: State, id: Id, busy: bool, outcome: Outcome, next: Option<Id>, newId: Id): (st': State)
    requires Valid(st) && id in st.queue
    requires st.queue[id].task in st.tasks ==> First(st, Later(st, st.queue[id].task), next)
    ensures Valid(st')
  {
    var taken := st.(queue := st.queue - {id});
    if st.queue[id].task !in st.tasks then taken
    else
      assert Later(taken, st.queue[id].task) == Later(st, st.queue[id].task);
      Ran(taken, st.queue[id], busy, outcome, next, newId)
  }

  // ---------------------------------------------------------------------
  // What users do to the list of tasks
  // ---------------------------------------------------------------------

  datatype Edit =
    /** A new task at a place, or at the end: the API, and without a place the panel. */
    | Insert(schedule: Id, at: Option<int>, tolerant: bool)
    /** A deletion through the API, which closes the gap. */
    | Close(task: Id)
    /** A deletion in the panel, which leaves the gap. */
    | Remove(task: Id)
    /** An update through the API, which may move the task. */
    | Move(task: Id, to: Option<int>, tolerant: bool)
    /** The whole list put in order by hand. */
    | Reorder(schedule: Id, order: seq<Id>)

  predicate Editable(st: State, e: Edit) {
    match e
    case Insert(schedule, _, _) => schedule in st.schedules
    case Close(task) => task in st.tasks
    case Remove(task) => task in st.tasks
    case Move(task, _, _) => task in st.tasks
    case Reorder(schedule, order) =>
      schedule in st.schedules && Distinct(order) && Elements(order) == TasksOf(st, schedule)
  }

  function Removed(e: Edit): set<Id> {
    if e.Close? || e.Remove? then {e.task} else {}
  }

  /** The largest sequence id of a schedule, or zero. */
  ghost function Highest(st: State, schedule: Id): int {
    var all := TasksOf(st, schedule);
    if t :| t in all && forall u | u in all :: st.tasks[u].sequence <= st.tasks[t].sequence
    then st.tasks[t].sequence else 0
  }

  /** The place of a new task: the one asked for, at least one and at most the end of the list. */
  ghost function Slot(st: State, schedule: Id, at: Option<int>): int {
    var end := Highest(st, schedule) + 1;
    if AtLeastOne(at.GetOr(end)) < end then AtLeastOne(at.GetOr(end)) else end
  }

  function AtLeastOne(n: int): int {
    if n < 1 then 1 else n
  }

  /** The place a task is moved to. */
  function Target(st: State, task: Id, to: Option<int>): int
    requires task in st.tasks
  {
    AtLeastOne(to.GetOr(st.tasks[task].sequence))
  }

  function Position(order: seq<Id>, t: Id): (i: nat)
    requires t in order
    ensures i < |order| && order[i] == t
  {
    if order[0] == t then 0 else Position(order[1..], t) + 1
  }

  /** The sequence id of a task after an edit. */
  ghost function NewPlace(st: State, e: Edit, t: Id): int
    requires Editable(st, e) && t in st.tasks
  {
    var row := st.tasks[t];
    match e
    case Insert(schedule, at, _) =>
      if row.schedule == schedule && Slot(st, schedule, at) <= row.sequence then row.sequence + 1 else row.sequence
    case Close(u) =>
      if row.schedule == st.tasks[u].schedule && st.tasks[u].sequence < row.sequence
      then row.sequence - 1 else row.sequence
    case Remove(_) => row.sequence
    case Move(u, to, _) =>
      var own, target := st.tasks[u].sequence, Target(st, u, to);
      if t == u then target
      else if row.schedule != st.tasks[u].schedule then row.sequence
      else if target <= row.sequence < own then row.sequence + 1
      else if own < row.sequence <= target then row.sequence - 1
      else row.sequence
    case Reorder(schedule, order) =>
      if row.schedule == schedule then
        assert t in Elements(order);
        Position(order, t) + 1
      else row.sequence
  }

  ghost function NewRow(st: State, e: Edit, t: Id): Task
    requires Editable(st, e) && t in st.tasks
  {
    var row := st.tasks[t].(sequence := NewPlace(st, e, t));
    if e.Move? && t == e.task then row.(continueOnFailure := e.tolerant) else row
  }

  ghost function Edited(st: State, e: Edit): (st': State)
    requires Valid(st) && Editable(st, e)
    ensures Valid(st') && st'.queue == st.queue && st'.schedules == st.schedules
  {
    var kept := map t | t in st.tasks && t !in Removed(e) :: NewRow(st, e, t);
    if e.Insert? then
      var id := st.lastTask + 1;
      st.(tasks := kept[id := Task(e.schedule, Slot(st, e.schedule, e.at), e.tolerant, false)], lastTask := id)
    else st.(tasks := kept)
  }

  /** An edit keeps the schedule and the mark of every task it does not delete, and adds at most one, unmarked. */
  lemma EditedRows(st: State, e: Edit)
    requires Valid(st) && Editable(st, e)
    ensures forall t | t in st.tasks && t !in Removed(e) ::
      t in Edited(st, e).tasks && Edited(st, e).tasks[t] == NewRow(st, e, t)
    ensures forall t | t in Edited(st, e).tasks && !(t in st.tasks && t !in Removed(e)) ::
      (e.Insert? && t == st.lastTask + 1
       && Edited(st, e).tasks[t] == Task(e.schedule, Slot(st, e.schedule, e.at), e.tolerant, false))
    ensures e.Insert? ==> st.lastTask + 1 in Edited(st, e).tasks
  {
  }

  /** `Highest` is what `orderByDesc('sequence_id')->first()` finds. */
  lemma HighestIs(st: State, schedule: Id)
    ensures TasksOf(st, schedule) == {} ==> Highest(st, schedule) == 0
    ensures TasksOf(st, schedule) != {} ==>
      exists t | t in TasksOf(st, schedule) :: st.tasks[t].sequence == Highest(st, schedule)
    ensures forall u | u in TasksOf(st, schedule) :: st.tasks[u].sequence <= Highest(st, schedule)
  {
    var all := TasksOf(st, schedule);
    if all != {} {
      LeastExists(all, t => if t in st.tasks then -st.tasks[t].sequence else 0);
      var t :| t in all && forall u | u in all :: -st.tasks[t].sequence <= -st.tasks[u].sequence;
    }
  }

  // ---------------------------------------------------------------------
  // The services
  // ---------------------------------------------------------------------

  function Shifted(row: Task, schedule: Id, low: int, high: int, step: int): Task {
    if row.schedule == schedule && low <= row.sequence <= high then row.(sequence := row.sequence + step) else row
  }

  /** `where('sequence_id', ...)->increment('sequence_id')`, or `decrement`, on the tasks of a schedule. */
  function ShiftedAll(tasks: map<Id, Task>, schedule: Id, low: int, high: int, step: int): map<Id, Task> {
    map t | t in tasks :: Shifted(tasks[t], schedule, low, high, step)
  }

  /** The controller's bulk updates are the edits. */
  lemma InsertByShift(st: State, schedule: Id, at: Option<int>, tolerant: bool)
    requires Valid(st) && schedule in st.schedules
    ensures var last, slot := Highest(st, schedule), Slot(st, schedule, at);
      Edited(st, Insert(schedule, at, tolerant)).tasks ==
        (if slot <= last then ShiftedAll(st.tasks, schedule, slot, last, 1) else st.tasks)
          [st.lastTask + 1 := Task(schedule, slot, tolerant, false)]
  {
    HighestIs(st, schedule);
  }

  lemma MoveByShift(st: State, task: Id, to: Option<int>, tolerant: bool)
    requires Valid(st) && task in st.tasks
    ensures var own, target := st.tasks[task].sequence, Target(st, task, to);
      var shifted :=
        if target < own then ShiftedAll(st.tasks, st.tasks[task].schedule, target, own - 1, 1)
        else if own < target then ShiftedAll(st.tasks, st.tasks[task].schedule, own + 1, target, -1)
        else st.tasks;
      Edited(st, Move(task, to, tolerant)).tasks ==
        shifted[task := st.tasks[task].(sequence := target, continueOnFailure := tolerant)]
  {
  }

  lemma CloseByShift(st: State, task: Id)
    requires Valid(st) && task in st.tasks
    ensures Edited(st, Close(task)).tasks ==
      ShiftedAll(st.tasks, st.tasks[task].schedule, st.tasks[task].sequence + 1,
        Highest(st, st.tasks[task].schedule), -1) - {task}
  {
    HighestIs(st, st.tasks[task].schedule);
  }

  // ---------------------------------------------------------------------
  // What users do to schedules
  // ---------------------------------------------------------------------

  datatype Setting =
    /** A new schedule. */
    | Open(schedule: Id, active: bool, onlyWhenOnline: bool)
    /** A schedule edited in the panel. */
    | Configure(schedule: Id, active: bool, onlyWhenOnline: bool)
    /** A schedule updated through the API: a change of `is_active` also resets `is_processing`. */
    | Toggle(schedule: Id, active: bool, onlyWhenOnline: bool)
    /** A schedule deleted with its tasks. */
    | Drop(schedule: Id)

  predicate Adjustable(st: State, m: Setting) {
    if m.Open? then m.schedule !in st.schedules else m.schedule in st.schedules
  }

  function Adjusted(st: State, m: Setting): (st': State)
    requires Valid(st) && Adjustable(st, m)
    ensures Valid(st') && st'.queue == st.queue && st'.lastTask == st.lastTask
  {
    match m
    case Open(s, active, online) => st.(schedules := st.schedules[s := Schedule(active, false, online)])
    case Configure(s, active, online) =>
      st.(schedules := st.schedules[s := st.schedules[s].(active := active, onlyWhenOnline := online)])
    case Toggle(s, active, online) =>
      var row := st.schedules[s];
      st.(schedules := st.schedules[s :=
        Schedule(active, row.processing && row.active == active, online)])
    case Drop(s) =>
      st.(schedules := st.schedules - {s}, tasks := map t | t in st.tasks && st.tasks[t].schedule != s :: st.tasks[t])
  }

  datatype StartError = NoTasks | TaskFailed

  class Scheduler {
    var schedules: map<Id, Schedule>
    var tasks: map<Id, Task>
    var queue: map<Id, Job>
    var lastTask: Id
    var lastJob: Id

    function View(): State
      reads this
    {
      State(schedules, tasks, lastTask, queue)
    }

    ghost predicate Ready()
      reads this
    {
      Valid(View()) && forall j | j in queue :: j <= lastJob
    }

    constructor (schedules: map<Id, Schedule>, tasks: map<Id, Task>, lastTask: Id)
      requires Valid(State(schedules, tasks, lastTask, map[]))
      ensures Ready() && View() == State(schedules, tasks, lastTask, map[])
    {
      this.schedules, this.tasks, this.lastTask, this.queue, this.lastJob := schedules, tasks, lastTask, map[], 0;
    }

    method MarkTaskNotQueued(task: Id)
      requires Ready() && task in tasks
      modifies this`tasks
      ensures Ready() && View() == SetQueued(old(View()), task, false)
    {
      tasks := tasks[task := tasks[task].(queued := false)];
    }

    method MarkScheduleComplete(task: Id)
      requires Ready() && task in tasks
      modifies this`schedules
      ensures Ready() && View() == SetProcessing(old(View()), tasks[task].schedule, false)
    {
      var schedule := tasks[task].schedule;
      schedules := schedules[schedule := schedules[schedule].(processing := false)];
    }

    method Failed(task: Id)
      requires Ready() && task in tasks
      modifies this`tasks, this`schedules
      ensures Ready() && View() == Ended(old(View()), task)
    {
      MarkTaskNotQueued(task);
      MarkScheduleComplete(task);
    }

    method Dispatch(job: Job)
      requires Ready() && job.task in tasks
      modifies this`queue, this`lastJob
      ensures Ready() && lastJob == old(lastJob) + 1 && queue == old(queue)[lastJob := job]
    {
      lastJob := lastJob + 1;
      queue := queue[lastJob := job];
    }

    method QueueNextTask(job: Job) returns (ghost next: Option<Id>)
      requires Ready() && job.task in tasks
      modifies this`tasks, this`schedules, this`queue, this`lastJob
      ensures Ready() && lastJob <= old(lastJob) + 1
      ensures First(old(View()), Later(old(View()), job.task), next)
      ensures View() == match next
        case None => SetProcessing(old(View()), old(tasks)[job.task].schedule, false)
        case Some(t) => SetQueued(old(View()), t, true).(queue := old(queue)[old(lastJob) + 1 := Job(t, job.manual)])
    {
      var later := Later(View(), job.task);
      if later == {} {
        next := None;
        MarkScheduleComplete(job.task);
        return;
      }
      FirstExists(View(), later);
      var nextTask :| First(View(), later, Some(nextTask));
      next := Some(nextTask);
      tasks := tasks[nextTask := tasks[nextTask].(queued := true)];
      Dispatch(Job(nextTask, job.manual));
    }

    /** The end of a job whose action was sent. */
    method Finish(job: Job) returns (ghost next: Option<Id>)
      requires Ready() && job.task in tasks
      modifies this
      ensures Ready() && First(old(View()), Later(old(View()), job.task), next)
      ensures View() == Handed(old(View()), job, next, old(lastJob) + 1)
    {
      ghost var st := View();
      MarkTaskNotQueued(job.task);
      assert Later(View(), job.task) == Later(st, job.task);
      next := QueueNextTask(job);
      assert First(st, Later(st, job.task), next);
    }

    /** `busy` says that the server has a status; a thrown exception leaves the job's flags as they were. */
    method RunTask(job: Job, busy: bool, outcome: Outcome) returns (thrown: bool, ghost next: Option<Id>)
      requires Ready() && job.task in tasks
      modifies this
      ensures Ready()
      ensures var row := old(tasks)[job.task]; thrown <==>
        ((old(schedules)[row.schedule].active || job.manual) && !busy
         && outcome != Fine && !(outcome == ConnectionError && row.continueOnFailure))
      ensures First(old(View()), Later(old(View()), job.task), next)
      ensures thrown ==> View() == old(View())
      ensures !thrown ==> View() == Ran(old(View()), job, busy, outcome, next, old(lastJob) + 1)
    {
      next := SomeFirst(View(), Later(View(), job.task));
      if !schedules[tasks[job.task].schedule].active && !job.manual {
        MarkTaskNotQueued(job.task);
        MarkScheduleComplete(job.task);
        return false, next;
      }
      if busy {
        Failed(job.task);
        return false, next;
      }
      if outcome != Fine {
        if !(tasks[job.task].continueOnFailure && outcome == ConnectionError) {
          return true, next;
        }
      }
      next := Finish(job);
      return false, next;
    }

    /**
      A queue worker takes a job. The framework calls `failed` when the job
      throws, but neither it nor `handle` when the task cannot be found any more.
    */
    method Work(id: Id, busy: bool, outcome: Outcome) returns (ghost next: Option<Id>)
      requires Ready() && id in queue
      modifies this
      ensures Ready()
      ensures old(queue)[id].task in old(tasks) ==> First(old(View()), Later(old(View()), old(queue)[id].task), next)
      ensures View() == Worked(old(View()), id, busy, outcome, next, old(lastJob) + 1)
    {
      var job := queue[id];
      queue := queue - {id};
      if job.task !in tasks {
        return None;
      }
      var thrown;
      thrown, next := RunTask(job, busy, outcome);
      if thrown {
        Failed(job.task);
      }
    }

    method Begin(task: Id)
      requires Ready() && task in tasks
      modifies this`schedules, this`tasks
      ensures Ready() && View() == Begun(old(View()), task)
    {
      var schedule := tasks[task].schedule;
      schedules := schedules[schedule := schedules[schedule].(processing := true)];
      tasks := tasks[task := tasks[task].(queued := true)];
    }

    method Launch(task: Id, now: bool, online: bool, busy: bool, outcome: Outcome)
        returns (thrown: bool, ghost next: Option<Id>)
      requires Ready() && task in tasks
      modifies this
      ensures Ready()
      ensures First(old(View()), Later(old(View()), task), next)
      ensures View() == Launched(old(View()), task, now, online, busy, outcome, next, old(lastJob) + 1)
      ensures thrown <==> (!Held(old(View()), task, online) && now
        && Sends(old(View()), Job(task, now), busy) && !Tolerated(old(tasks)[task], outcome))
    {
      thrown := false;
      next := SomeFirst(View(), Later(View(), task));
      if schedules[tasks[task].schedule].onlyWhenOnline {
        if !online {
          Failed(task);
          return;
        }
      }
      if !now {
        Dispatch(Job(task, now));
        return;
      }
      thrown, next := RunTask(Job(task, now), busy, outcome);
      if thrown {
        Failed(task);
      }
    }

    /** `online` is what the daemon says about the server; an exception counts as offline. */
    method Process(schedule: Id, now: bool, online: bool, busy: bool, outcome: Outcome)
        returns (r: Result<(), StartError>, ghost first: Option<Id>, ghost next: Option<Id>)
      requires Ready() && schedule in schedules
      modifies this
      ensures Ready()
      ensures First(old(View()), TasksOf(old(View()), schedule), first)
      ensures first.None? ==> r == Failure(NoTasks) && View() == old(View())
      ensures first.Some? ==>
        && First(old(View()), Later(old(View()), first.value), next)
        && View() == Started(old(View()), first.value, now, online, busy, outcome, next, old(lastJob) + 1)
        && (r == Failure(TaskFailed) <==>
          (!old(schedules)[schedule].onlyWhenOnline || online) && now && !busy
          && outcome != Fine && !(outcome == ConnectionError && old(tasks)[first.value].continueOnFailure))
      ensures r == Failure(NoTasks) ==> first.None?
    {
      first, next := None, None;
      var all := TasksOf(View(), schedule);
      if all == {} {
        return Failure(NoTasks), first, next;
      }
      FirstExists(View(), all);
      var task :| First(View(), all, Some(task));
      first := Some(task);
      var thrown;
      thrown, next := Start(task, now, online, busy, outcome);
      r := if thrown then Failure(TaskFailed) else Success(());
    }

    method Start(task: Id, now: bool, online: bool, busy: bool, outcome: Outcome)
        returns (thrown: bool, ghost next: Option<Id>)
      requires Ready() && task in tasks
      modifies this
      ensures Ready()
      ensures First(old(View()), Later(old(View()), task), next)
      ensures View() == Started(old(View()), task, now, online, busy, outcome, next, old(lastJob) + 1)
      ensures thrown <==>
        (!Held(old(View()), task, online) && now && !busy && !Tolerated(old(tasks)[task], outcome))
    {
      Begin(task);
      thrown, next := Launch(task, now, online, busy, outcome);
    }

    // -------------------------------------------------------------------
    // Edits of schedules
    // -------------------------------------------------------------------

    /** `update` of the API. */
    method UpdateSchedule(schedule: Id, active: bool, onlyWhenOnline: bool)
      requires Ready() && schedule in schedules
      modifies this`schedules
      ensures Ready() && View() == Adjusted(old(View()), Toggle(schedule, active, onlyWhenOnline))
      ensures schedules == old(schedules)[schedule :=
        Schedule(active, old(schedules)[schedule].processing && old(schedules)[schedule].active == active, onlyWhenOnline)]
    {
      var row := schedules[schedule];
      var data := row.(active := active, onlyWhenOnline := onlyWhenOnline);
      if row.active != active {
        data := data.(processing := false);
      }
      schedules := schedules[schedule := data];
    }

    /** `delete`; the tasks follow by cascade. */
    method DeleteSchedule(schedule: Id)
      requires Ready() && schedule in schedules
      modifies this`schedules, this`tasks
      ensures Ready() && View() == Adjusted(old(View()), Drop(schedule))
      ensures schedules == old(schedules) - {schedule} && TasksOf(View(), schedule) == {}
      ensures forall t | t in old(tasks) && old(tasks)[t].schedule != schedule :: t in tasks && tasks[t] == old(tasks)[t]
    {
      schedules := schedules - {schedule};
      tasks := map t | t in tasks && tasks[t].schedule != schedule :: tasks[t];
    }

    // -------------------------------------------------------------------
    // Edits of the list of tasks
    // -------------------------------------------------------------------

    method LastSequence(schedule: Id) returns (n: int)
      ensures n == Highest(View(), schedule)
    {
      ghost var st := View();
      var all := TasksOf(View(), schedule);
      HighestIs(View(), schedule);
      if all == {} {
        return 0;
      }
      LeastExists(all, t => if t in st.tasks then -st.tasks[t].sequence else 0);
      assert exists t :: t in all && forall u | u in all :: -st.tasks[t].sequence <= -st.tasks[u].sequence;
      var last :| last in all && forall u | u in all :: tasks[u].sequence <= tasks[last].sequence;
      return tasks[last].sequence;
    }

    /** The place of a new task, with the later ones moved out of its way. */
    method MakeRoom(schedule: Id, at: Option<int>) returns (sequenceId: int)
      requires Ready() && schedule in schedules
      modifies this`tasks
      ensures sequenceId == Slot(old(View()), schedule, at)
      ensures tasks ==
        if sequenceId <= Highest(old(View()), schedule)
        then ShiftedAll(old(tasks), schedule, sequenceId, Highest(old(View()), schedule), 1) else old(tasks)
    {
      var last := LastSequence(schedule);
      sequenceId := last + 1;
      var requested := AtLeastOne(at.GetOr(sequenceId));
      if requested < sequenceId {
        tasks := ShiftedAll(tasks, schedule, requested, last, 1);
        sequenceId := requested;
      }
    }

    /** `store`, and without a place the create action of the panel. */
    method StoreTask(schedule: Id, at: Option<int>, tolerant: bool) returns (id: Id)
      requires Ready() && schedule in schedules
      modifies this`tasks, this`lastTask
      ensures Ready() && View() == Edited(old(View()), Insert(schedule, at, tolerant))
      ensures id == lastTask && id !in old(tasks)
    {
      InsertByShift(View(), schedule, at, tolerant);
      var sequenceId := MakeRoom(schedule, at);
      id := lastTask + 1;
      tasks, lastTask := tasks[id := Task(schedule, sequenceId, tolerant, false)], id;
    }

    /** `update`: the tasks between the old and the new place make room. */
    method UpdateTask(task: Id, to: Option<int>, tolerant: bool)
      requires Ready() && task in tasks
      modifies this`tasks
      ensures Ready() && View() == Edited(old(View()), Move(task, to, tolerant))
    {
      MoveByShift(View(), task, to, tolerant);
      var row := tasks[task];
      var sequenceId := AtLeastOne(to.GetOr(row.sequence));
      if sequenceId < row.sequence {
        tasks := ShiftedAll(tasks, row.schedule, sequenceId, row.sequence - 1, 1);
      } else if row.sequence < sequenceId {
        tasks := ShiftedAll(tasks, row.schedule, row.sequence + 1, sequenceId, -1);
      }
      tasks := tasks[task := tasks[task].(sequence := sequenceId, continueOnFailure := tolerant)];
    }

    /** `delete`: the later tasks move up. */
    method DeleteTask(task: Id)
      requires Ready() && task in tasks
      modifies this`tasks
      ensures Ready() && View() == Edited(old(View()), Close(task))
    {
      CloseByShift(View(), task);
      var row := tasks[task];
      var last := LastSequence(row.schedule);
      tasks := ShiftedAll(tasks, row.schedule, row.sequence + 1, last, -1);
      tasks := tasks - {task};
    }

    /** The delete action of the panel. */
    method RemoveTask(task: Id)
      requires Ready() && task in tasks
      modifies this`tasks
      ensures Ready() && View() == Edited(old(View()), Remove(task))
    {
      ghost var st := View();
      tasks := tasks - {task};
      assert tasks == Edited(st, Remove(task)).tasks;
    }

    /** The reorderable table of the panel: places from one on. */
    method ReorderTasks(schedule: Id, order: seq<Id>)
      requires Ready() && Editable(View(), Reorder(schedule, order))
      modifies this`tasks
      ensures Ready() && View() == Edited(old(View()), Reorder(schedule, order))
    {
      ghost var st := View();
      assert forall t | t in tasks && tasks[t].schedule == schedule :: t in Elements(order);
      tasks := map t | t in tasks ::
        if tasks[t].schedule == schedule then tasks[t].(sequence := Position(order, t) + 1) else tasks[t];
      assert tasks == Edited(st, Reorder(schedule, order)).tasks;
    }
  }
}
