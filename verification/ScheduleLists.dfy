/**
  The numbering of a schedule's tasks: when edits keep it from one to the number
  of tasks, and where they put a task
  (app/Http/Controllers/Api/Client/Servers/ScheduleTaskController.php and the
  task table of the panel).
*/
module ScheduleLists {
  import opened Wrappers
  import opened FiniteSets
  import opened Schedules
  import opened ScheduleChains

  /** The sequence ids of the schedule are exactly the numbers from one to the number of its tasks. */
  ghost predicate Numbered(st: State, s: Id) {
    && DistinctSequences(st, s)
    && (forall t | t in TasksOf(st, s) :: 1 <= Place(st, t) <= |TasksOf(st, s)|)
  }

  /** There are at most `n` tasks with distinct numbers from one to `n`. */
  lemma {:induction false} AtMostAsManyAsNumbers(st: State, tasks: set<Id>, n: nat)
    requires forall t | t in tasks :: 1 <= Place(st, t) <= n
    requires forall t, u | t in tasks && u in tasks && Place(st, t) == Place(st, u) :: t == u
    ensures |tasks| <= n
    decreases n
  {
    if n == 0 {
      assert tasks == {};
    } else if exists t :: t in tasks && Place(st, t) == n {
      var last :| last in tasks && Place(st, last) == n;
      AtMostAsManyAsNumbers(st, tasks - {last}, n - 1);
    } else {
      AtMostAsManyAsNumbers(st, tasks, n - 1);
    }
  }

  /** So somebody has the last number. */
  lemma SomebodyIsLast(st: State, s: Id)
    requires Numbered(st, s) && TasksOf(st, s) != {}
    ensures exists t :: t in TasksOf(st, s) && Place(st, t) == |TasksOf(st, s)|
    ensures Highest(st, s) == |TasksOf(st, s)|
  {
    var n := |TasksOf(st, s)|;
    if forall t | t in TasksOf(st, s) :: Place(st, t) != n {
      AtMostAsManyAsNumbers(st, TasksOf(st, s), n - 1);
    }
    HighestIs(st, s);
  }

  /** A new task goes to the place asked for, or to the nearest end of the list. */
  lemma SlotInNumbered(st: State, s: Id, at: Option<int>)
    requires Numbered(st, s)
    ensures var end := |TasksOf(st, s)| + 1;
      Slot(st, s, at) == if at.None? || at.value > end then end else if at.value < 1 then 1 else at.value
  {
    if TasksOf(st, s) == {} {
      HighestIs(st, s);
    } else {
      SomebodyIsLast(st, s);
    }
  }

  lemma CountAfter(st: State, e: Edit, s: Id)
    requires Valid(st) && Editable(st, e) && Touches(st, e, s)
    ensures |TasksOf(Edited(st, e), s)| ==
      |TasksOf(st, s)| + (if e.Insert? then 1 else if e.Close? || e.Remove? then -1 else 0)
  {
    EditedTasks(st, e, s);
    assert st.lastTask + 1 !in TasksOf(st, s);
    if e.Close? || e.Remove? {
      assert e.task in TasksOf(st, s);
    }
  }

  lemma RemovalKeepsNumberingIff(st: State, u: Id, s: Id)
    requires Valid(st) && u in TasksOf(st, s) && Numbered(st, s)
    ensures Numbered(Edited(st, Remove(u)), s) <==> st.tasks[u].sequence == |TasksOf(st, s)|
  {
    var st', n := Edited(st, Remove(u)), |TasksOf(st, s)|;
    EditsKeepDistinct(st, Remove(u), s);
    EditedTasks(st, Remove(u), s);
    CountAfter(st, Remove(u), s);
    SomebodyIsLast(st, s);
    var last :| last in TasksOf(st, s) && Place(st, last) == n;
    if last != u {
      assert last in TasksOf(st', s) && Place(st', last) == n;
    }
  }

  lemma MoveKeepsNumberingIff(st: State, u: Id, to: Option<int>, tolerant: bool, s: Id)
    requires Valid(st) && u in TasksOf(st, s) && Numbered(st, s)
    ensures Numbered(Edited(st, Move(u, to, tolerant)), s) <==> to.None? || to.value <= |TasksOf(st, s)|
  {
    var e := Move(u, to, tolerant);
    var st', n := Edited(st, e), |TasksOf(st, s)|;
    EditsKeepDistinct(st, e, s);
    EditedTasks(st, e, s);
    assert TasksOf(st', s) == TasksOf(st, s) && n > 0;
    assert Place(st', u) == Target(st, u, to);
    if Target(st, u, to) <= n {
      forall t | t in TasksOf(st', s)
        ensures 1 <= Place(st', t) <= n
      {
        assert Place(st', t) == NewPlace(st, e, t) && 1 <= Place(st, t) <= n && 1 <= Place(st, u) <= n;
      }
    }
  }

  lemma ReorderNumbers(st: State, order: seq<Id>, s: Id)
    requires Valid(st) && Editable(st, Reorder(s, order)) && DistinctSequences(st, s)
    ensures Numbered(Edited(st, Reorder(s, order)), s)
  {
    var e := Reorder(s, order);
    EditsKeepDistinct(st, e, s);
    EditedTasks(st, e, s);
    DistinctSize(order);
    assert forall t | t in TasksOf(st, s) :: t in Elements(order);
  }

  lemma PlacesAfterInsert(st: State, at: Option<int>, tolerant: bool, s: Id, t: Id)
    requires Valid(st) && s in st.schedules && Numbered(st, s) && t in TasksOf(Edited(st, Insert(s, at, tolerant)), s)
    ensures 1 <= Place(Edited(st, Insert(s, at, tolerant)), t) <= |TasksOf(st, s)| + 1
  {
    EditedTasks(st, Insert(s, at, tolerant), s);
    if t in TasksOf(st, s) {
      assert 1 <= Place(st, t) <= |TasksOf(st, s)|;
    } else {
      SlotInNumbered(st, s, at);
    }
  }

  lemma InsertKeepsNumbering(st: State, at: Option<int>, tolerant: bool, s: Id)
    requires Valid(st) && s in st.schedules && Numbered(st, s)
    ensures Numbered(Edited(st, Insert(s, at, tolerant)), s)
  {
    var e := Insert(s, at, tolerant);
    EditsKeepDistinct(st, e, s);
    CountAfter(st, e, s);
    forall t | t in TasksOf(Edited(st, e), s)
      ensures 1 <= Place(Edited(st, e), t) <= |TasksOf(st, s)| + 1
    {
      PlacesAfterInsert(st, at, tolerant, s, t);
    }
  }

  lemma CloseKeepsNumbering(st: State, u: Id, s: Id)
    requires Valid(st) && u in TasksOf(st, s) && Numbered(st, s)
    ensures Numbered(Edited(st, Close(u)), s)
  {
    var e, n := Close(u), |TasksOf(st, s)|;
    var st' := Edited(st, e);
    EditsKeepDistinct(st, e, s);
    EditedTasks(st, e, s);
    CountAfter(st, e, s);
    forall t | t in TasksOf(st', s)
      ensures 1 <= Place(st', t) <= n - 1
    {
      assert 1 <= Place(st, t) <= n && 1 <= Place(st, u) <= n && Place(st, t) != Place(st, u);
      assert Place(st', t) == NewPlace(st, e, t);
    }
  }

  /**
    An edit keeps the tasks numbered from one without gaps, except that a move
    must not go beyond the end, and a deletion in the panel must be the last task.
  */
  lemma EditKeepsNumberingIff(st: State, e: Edit, s: Id)
    requires Valid(st) && Editable(st, e) && Touches(st, e, s) && Numbered(st, s)
    ensures Numbered(Edited(st, e), s) <==> match e
      case Move(_, Some(to), _) => to <= |TasksOf(st, s)|
      case Remove(u) => st.tasks[u].sequence == |TasksOf(st, s)|
      case _ => true
  {
    match e {
      case Reorder(_, order) => ReorderNumbers(st, order, s);
      case Move(u, to, tolerant) => MoveKeepsNumberingIff(st, u, to, tolerant, s);
      case Remove(u) => RemovalKeepsNumberingIff(st, u, s);
      case Insert(_, at, tolerant) => InsertKeepsNumbering(st, at, tolerant, s);
      case Close(u) => CloseKeepsNumbering(st, u, s);
    }
  }

  /**
    Where an edit of a numbered list puts its task: a new one goes to the place
    asked for, or the nearest end of the list; a moved one to the place asked for,
    from one on; and a new order is the numbering.
  */
  lemma EditPutsTaskAt(st: State, e: Edit, s: Id)
    requires Valid(st) && Editable(st, e) && Touches(st, e, s) && Numbered(st, s)
    ensures var st', end := Edited(st, e), |TasksOf(st, s)| + 1;
      match e
      case Insert(_, at, tolerant) =>
        var place := if at.None? || at.value > end then end else if at.value < 1 then 1 else at.value;
        st'.lastTask == st.lastTask + 1 && st'.lastTask in st'.tasks
          && st'.tasks[st'.lastTask] == Task(s, place, tolerant, false)
      case Move(u, to, tolerant) =>
        var place := if to.None? then st.tasks[u].sequence else if to.value < 1 then 1 else to.value;
        u in st'.tasks && st'.tasks[u] == Task(s, place, tolerant, st.tasks[u].queued)
      case Reorder(_, order) =>
        forall i | 0 <= i < |order| :: order[i] in st'.tasks && st'.tasks[order[i]].sequence == i + 1
      case Close(u) => st'.tasks.Keys == st.tasks.Keys - {u}
      case Remove(u) => st'.tasks.Keys == st.tasks.Keys - {u}
  {
    EditedRows(st, e);
    if e.Insert? {
      SlotInNumbered(st, s, e.at);
    }
    if e.Move? {
      assert e.task in TasksOf(st, s) && 1 <= Place(st, e.task);
    }
    if e.Reorder? {
      forall i | 0 <= i < |e.order|
        ensures e.order[i] in TasksOf(st, s) && Position(e.order, e.order[i]) == i
      {
        assert e.order[i] in Elements(e.order);
      }
    }
  }

  /** All other tasks of the schedule stay in their order, and the rows of other schedules as they are. */
  lemma OthersKeepOrder(st: State, e: Edit, s: Id, t: Id, u: Id)
    requires Valid(st) && Editable(st, e) && Touches(st, e, s) && !e.Reorder? && DistinctSequences(st, s)
    requires t in TasksOf(st, s) && u in TasksOf(st, s) && !(e.Move? && e.task in {t, u}) && {t, u} !! Removed(e)
    ensures Place(Edited(st, e), t) < Place(Edited(st, e), u) <==> Place(st, t) < Place(st, u)
    ensures forall x | x in st.tasks && st.tasks[x].schedule != s ::
      x in Edited(st, e).tasks && Edited(st, e).tasks[x] == st.tasks[x]
  {
    EditedRows(st, e);
    if e.Move? {
      assert Place(st, e.task) != Place(st, t) && Place(st, e.task) != Place(st, u);
    } else {
      ShiftsKeepOrder(st, e, s, t, u);
    }
  }
}
