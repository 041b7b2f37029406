/**
  Backups of a server: the creation throttle, the per-server limit and the
  rotation that makes room for a new backup
  (app/Services/Backups/InitiateBackupService.php and DeleteBackupService.php).
*/
module Backups {
  import opened Wrappers
  import opened FiniteSets

  type Id = nat
  type Time = int

  datatype Backup = Backup(
    server: Id,
    createdAt: Time,
    completedAt: Option<Time>,
    successful: bool,
    locked: bool,
    onS3: bool,
    ignored: seq<string>,
    deleted: bool)

  datatype Status = InProgress | Successful | Failed

  /** The `status` attribute. */
  function StatusOf(b: Backup): Status {
    if b.completedAt.None? then InProgress else if b.successful then Successful else Failed
  }

  /** The `nonFailed` query: ongoing or completed backups. */
  predicate NonFailed(b: Backup) {
    b.completedAt.None? || b.successful
  }

  /** All rows, including the soft-deleted ones. */
  type Table = map<Id, Backup>

  /** Non-failed backups of a server created since a moment, deleted or not. */
  function Since(t: Table, server: Id, from: Time): set<Id> {
    set i | i in t && t[i].server == server && NonFailed(t[i]) && from <= t[i].createdAt
  }

  /** Non-failed backups of a server created in a closed window of time, deleted or not. */
  function Window(t: Table, server: Id, from: Time, to: Time): set<Id> {
    set i | i in t && t[i].server == server && NonFailed(t[i]) && from <= t[i].createdAt <= to
  }

  /** The backups that count towards a server's limit. */
  function Live(t: Table, server: Id): set<Id> {
    set i | i in t && t[i].server == server && NonFailed(t[i]) && !t[i].deleted
  }

  function Evictable(t: Table, server: Id): set<Id> {
    set i | i in Live(t, server) && !t[i].locked
  }

  predicate Oldest(t: Table, ids: set<Id>, i: Id)
    requires ids <= t.Keys
  {
    i in ids && forall j | j in ids :: t[i].createdAt <= t[j].createdAt
  }

  lemma OldestExists(t: Table, ids: set<Id>)
    requires ids <= t.Keys && ids != {}
    ensures exists i :: Oldest(t, ids, i)
  {
    LeastExists(ids, i => if i in t then t[i].createdAt else 0);
    var i :| i in ids && forall j | j in ids :: t[i].createdAt <= t[j].createdAt;
    assert Oldest(t, ids, i);
  }

  /** A failed backup is exactly one that the limit and the throttle ignore. */
  lemma NonFailedIsStatus(b: Backup)
    ensures NonFailed(b) <==> StatusOf(b) != Failed
  {
  }

  // ---------------------------------------------------------------------
  // Deleting a backup
  // ---------------------------------------------------------------------

  datatype Error = TooManyRequests | TooManyBackups | BackupLocked | DaemonFailure

  /** What the storage answers to a deletion. */
  datatype Reply = Done | NotFound | Refused

  /** A completed, successful backup cannot be deleted while it is locked. */
  predicate Guarded(b: Backup) {
    b.locked && b.successful && b.completedAt.Some?
  }

  /** A missing archive is accepted from the daemon, but not from S3. */
  predicate Accepted(b: Backup, reply: Reply) {
    if b.onS3 then reply == Done else reply != Refused
  }

  function SoftDeleted(t: Table, i: Id): Table
    requires i in t
  {
    t[i := t[i].(deleted := true)]
  }

  // ---------------------------------------------------------------------
  // Initiating a backup
  // ---------------------------------------------------------------------

  datatype Throttle = Throttle(limit: int, period: int)

  /** One call of the service and what the outside world answers to it. */
  datatype Call = Call(
    server: Id,
    backupLimit: int,
    override: bool,
    locked: bool,
    ignored: seq<string>,
    onS3: bool,
    now: Time,
    throttle: Throttle,
    deleteReply: Reply,
    daemonAccepts: bool)

  predicate Throttled(t: Table, c: Call) {
    c.throttle.period > 0 && |Since(t, c.server, c.now - c.throttle.period)| >= c.throttle.limit
  }

  predicate Full(t: Table, c: Call) {
    c.backupLimit == 0 || |Live(t, c.server)| >= c.backupLimit
  }

  /** No room, and no permission or no unlocked backup to make some. */
  predicate Blocked(t: Table, c: Call) {
    Full(t, c) && (!c.override || c.backupLimit <= 0 || Evictable(t, c.server) == {})
  }

  /** The backup that has to go, if one has to. */
  predicate Victim(t: Table, c: Call, victim: Option<Id>) {
    if !Throttled(t, c) && Full(t, c) && !Blocked(t, c)
    then victim.Some? && Oldest(t, Evictable(t, c.server), victim.value)
    else victim.None?
  }

  function Fresh(c: Call): Backup {
    Backup(c.server, c.now, None, false, c.locked, c.onS3, c.ignored, false)
  }

  function Evicted(t: Table, victim: Option<Id>): Table
    requires victim.Some? ==> victim.value in t
  {
    if victim.Some? then SoftDeleted(t, victim.value) else t
  }

  /** The answer to a call, and the table after it. */
  function Initiated(t: Table, c: Call, victim: Option<Id>, id: Id): (Result<Id, Error>, Table)
    requires Victim(t, c, victim)
  {
    if Throttled(t, c) then (Failure(TooManyRequests), t)
    else if Blocked(t, c) then (Failure(TooManyBackups), t)
    else if victim.Some? && !Accepted(t[victim.value], c.deleteReply) then (Failure(DaemonFailure), t)
    else if !c.daemonAccepts then (Failure(DaemonFailure), Evicted(t, victim))
    else (Success(id), Evicted(t, victim)[id := Fresh(c)])
  }

  class BackupStore {
    var backups: Table
    var lastId: Id

    ghost predicate Valid()
      reads this
    {
      forall i | i in backups :: i <= lastId
    }

    constructor ()
      ensures Valid() && backups == map[]
    {
      backups, lastId := map[], 0;
    }
  }

  class DeleteBackupService {
    const store: BackupStore

    constructor (store: BackupStore)
      ensures this.store == store
    {
      this.store := store;
    }

    method Handle(id: Id, reply: Reply) returns (r: Result<(), Error>)
      requires store.Valid() && id in store.backups
      modifies store`backups
      ensures store.Valid()
      ensures var b := old(store.backups)[id];
        var guarded := b.locked && b.successful && b.completedAt.Some?;
        var accepted := if b.onS3 then reply == Done else reply != Refused;
        && r == (if guarded then Failure(BackupLocked) else if accepted then Success(()) else Failure(DaemonFailure))
        && store.backups == (if r.Success? then old(store.backups)[id := b.(deleted := true)] else old(store.backups))
    {
      var backup := store.backups[id];
      if backup.locked && (backup.successful && !backup.completedAt.None?) {
        return Failure(BackupLocked);
      }
      if backup.onS3 {
        var saved := store.backups;
        store.backups := store.backups[id := backup.(deleted := true)];
        if reply != Done {
          store.backups := saved;
          return Failure(DaemonFailure);
        }
        return Success(());
      }
      if reply == Refused {
        return Failure(DaemonFailure);
      }
      store.backups := store.backups[id := backup.(deleted := true)];
      return Success(());
    }
  }

  class InitiateBackupService {
    const store: BackupStore
    const deleteBackupService: DeleteBackupService
    var ignoredFiles: seq<string>
    var isLocked: bool

    constructor (store: BackupStore, deleteBackupService: DeleteBackupService)
      requires deleteBackupService.store == store
      ensures this.store == store && this.deleteBackupService == deleteBackupService
      ensures ignoredFiles == [] && !isLocked
    {
      this.store, this.deleteBackupService := store, deleteBackupService;
      ignoredFiles, isLocked := [], false;
    }

    method SetIsLocked(locked: bool)
      modifies this`isLocked
      ensures isLocked == locked
    {
      isLocked := locked;
    }

    /** Empty names are dropped, everything else is kept in order. */
    method SetIgnoredFiles(ignored: Option<seq<string>>)
      modifies this`ignoredFiles
      ensures ignoredFiles == NonEmptyNames(ignored.GetOr([]))
    {
      ignoredFiles := [];
      if ignored.Some? {
        var names := ignored.value;
        for i := 0 to |names|
          invariant ignoredFiles == NonEmptyNames(names[..i])
        {
          assert names[..i + 1][..i] == names[..i];
          if |names[i]| > 0 {
            ignoredFiles := ignoredFiles + [names[i]];
          }
        }
        assert names[..|names|] == names;
      }
    }

    /** `c.locked` and `c.ignored` are the fields of the service. */
    method Handle(c: Call) returns (r: Result<Id, Error>)
      requires store.Valid() && deleteBackupService.store == store
      requires c.locked == isLocked && c.ignored == ignoredFiles
      modifies store
      ensures store.Valid()
      ensures exists victim, id ::
        && id !in old(store.backups)
        && Victim(old(store.backups), c, victim)
        && (r, store.backups) == Initiated(old(store.backups), c, victim, id)
    {
      ghost var t := store.backups;
      ghost var victim: Option<Id> := None;
      ghost var id: Id := store.lastId + 1;
      if c.throttle.period > 0 {
        var previous := Since(store.backups, c.server, c.now - c.throttle.period);
        if |previous| >= c.throttle.limit {
          assert Victim(t, c, None) && (Failure(TooManyRequests), t) == Initiated(t, c, None, id);
          return Failure(TooManyRequests);
        }
      }
      var successful := Live(store.backups, c.server);
      if c.backupLimit == 0 || |successful| >= c.backupLimit {
        if !c.override || c.backupLimit <= 0 {
          assert Victim(t, c, None) && (Failure(TooManyBackups), t) == Initiated(t, c, None, id);
          return Failure(TooManyBackups);
        }
        var candidates := Evictable(store.backups, c.server);
        if candidates == {} {
          assert Victim(t, c, None) && (Failure(TooManyBackups), t) == Initiated(t, c, None, id);
          return Failure(TooManyBackups);
        }
        OldestExists(store.backups, candidates);
        var oldest :| Oldest(store.backups, candidates, oldest);
        victim := Some(oldest);
        var deleted := deleteBackupService.Handle(oldest, c.deleteReply);
        if deleted.Failure? {
          assert Victim(t, c, victim) && (Failure(DaemonFailure), t) == Initiated(t, c, victim, id);
          return Failure(deleted.error);
        }
      }
      assert Victim(t, c, victim);
      assert store.backups == Evicted(t, victim);
      var saved := store.backups;
      store.lastId := store.lastId + 1;
      var backup := store.lastId;
      store.backups := store.backups[backup :=
        Backup(c.server, c.now, None, false, isLocked, c.onS3, ignoredFiles, false)];
      if !c.daemonAccepts {
        store.backups := saved;
        assert (Failure(DaemonFailure), saved) == Initiated(t, c, victim, id);
        return Failure(DaemonFailure);
      }
      assert (Success(backup), store.backups) == Initiated(t, c, victim, id);
      return Success(backup);
    }
  }

  function NonEmptyNames(names: seq<string>): seq<string> {
    if names == [] then []
    else
      var last := names[|names| - 1];
      NonEmptyNames(names[..|names| - 1]) + (if |last| > 0 then [last] else [])
  }

  // ---------------------------------------------------------------------
  // What decides about an initiation
  // ---------------------------------------------------------------------

  /**
    An initiation is throttled by the backups of the server in the period, and
    refused at its limit unless the oldest unlocked one may and can be deleted.
    Ongoing and successful backups count; deleted ones for the throttle only.
  */
  lemma InitiatedIff(t: Table, c: Call, victim: Option<Id>, id: Id, recent: set<Id>, live: set<Id>, free: set<Id>)
    requires Victim(t, c, victim) && id !in t
    requires forall i :: i in recent <==> (i in t && t[i].server == c.server
      && (t[i].completedAt.None? || t[i].successful) && c.now - c.throttle.period <= t[i].createdAt)
    requires forall i :: i in live <==> (i in t && t[i].server == c.server
      && (t[i].completedAt.None? || t[i].successful) && !t[i].deleted)
    requires forall i :: i in free <==> i in live && !t[i].locked
    ensures var r := Initiated(t, c, victim, id).0;
      var throttled := c.throttle.period > 0 && |recent| >= c.throttle.limit;
      var full := c.backupLimit == 0 || |live| >= c.backupLimit;
      var stuck := full && (!c.override || c.backupLimit <= 0 || free == {});
      && (r == Failure(TooManyRequests) <==> throttled)
      && (r == Failure(TooManyBackups) <==> !throttled && stuck)
      && (victim.Some? <==> !throttled && full && !stuck)
      && (victim.Some? ==>
        victim.value in free && forall j | j in free :: t[victim.value].createdAt <= t[j].createdAt)
      && (r == Success(id) <==> !throttled && !stuck && c.daemonAccepts && CanGo(t, c, victim))
      && (r == Failure(DaemonFailure) <==> !throttled && !stuck && !(c.daemonAccepts && CanGo(t, c, victim)))
  {
    assert recent == Since(t, c.server, c.now - c.throttle.period);
    assert live == Live(t, c.server);
    assert free == Evictable(t, c.server);
  }

  /** The storage lets go of the backup that has to make room, if there is one. */
  predicate CanGo(t: Table, c: Call, victim: Option<Id>) {
    victim.Some? && victim.value in t ==>
      c.deleteReply == Done || (c.deleteReply == NotFound && !t[victim.value].onS3)
  }

  /**
    The table after an initiation: the row of the new backup if it succeeds, and
    the oldest one deleted as soon as its storage lets go of it, even if the
    daemon then refuses the new one. No other row changes.
  */
  lemma RowsAfterInitiation(t: Table, c: Call, victim: Option<Id>, id: Id)
    requires Victim(t, c, victim) && id !in t
    ensures var (r, t') := Initiated(t, c, victim, id);
      && t'.Keys == (if r.Success? then t.Keys + {id} else t.Keys)
      && (r.Success? ==> t'[id] == Backup(c.server, c.now, None, false, c.locked, c.onS3, c.ignored, false))
      && (forall i | i in t && Some(i) != victim :: t'[i] == t[i])
      && (victim.Some? ==>
        t'[victim.value] == t[victim.value].(deleted := t[victim.value].deleted || CanGo(t, c, victim)))
  {
  }

  // ---------------------------------------------------------------------
  // Runs
  // ---------------------------------------------------------------------

  /**
    What happens to backups: calls of the two services, reports of the daemon
    about a backup that was not successful yet, changes of the lock, and the
    command that gives up on a backup without a report, which keeps its lock.
  */
  datatype Event =
    | Initiate(call: Call, victim: Option<Id>, id: Id)
    | Delete(target: Id, reply: Reply)
    | Report(target: Id, success: bool, at: Time)
    | SetLock(target: Id, lock: bool)
    | Prune(target: Id, at: Time)

  predicate Enabled(t: Table, e: Event) {
    match e
    case Initiate(c, victim, id) => Victim(t, c, victim) && id !in t
    case Delete(i, _) => i in t && !t[i].deleted
    case Report(i, _, _) => i in t && !t[i].deleted && !t[i].successful
    case SetLock(i, _) => i in t && !t[i].deleted
    case Prune(i, _) => i in t && !t[i].deleted && t[i].completedAt.None?
  }

  function Next(t: Table, e: Event): Table
    requires Enabled(t, e)
  {
    match e
    case Initiate(c, victim, id) => Initiated(t, c, victim, id).1
    case Delete(i, reply) =>
      if !Guarded(t[i]) && Accepted(t[i], reply) then SoftDeleted(t, i) else t
    case Report(i, success, at) =>
      t[i := t[i].(completedAt := Some(at), successful := success, locked := success && t[i].locked)]
    case SetLock(i, lock) => t[i := t[i].(locked := lock)]
    case Prune(i, at) => t[i := t[i].(completedAt := Some(at), successful := false)]
  }

  /** A report of success for a backup that had already failed. */
  predicate Revives(t: Table, e: Event)
    requires Enabled(t, e)
  {
    e.Report? && e.success && StatusOf(t[e.target]) == Failed
  }

  ghost predicate Run(ts: seq<Table>, es: seq<Event>) {
    && |ts| == |es| + 1
    && forall k | 0 <= k < |es| :: Enabled(ts[k], es[k]) && ts[k + 1] == Next(ts[k], es[k])
  }

  ghost predicate NoRevival(ts: seq<Table>, es: seq<Event>)
    requires Run(ts, es)
  {
    forall k | 0 <= k < |es| :: !Revives(ts[k], es[k])
  }

  /** Rows are never removed, their creation is never rewritten, and failure is final. */
  lemma RowsPersist(t: Table, e: Event)
    requires Enabled(t, e)
    ensures forall i | i in t ::
      (i in Next(t, e) && Next(t, e)[i].server == t[i].server && Next(t, e)[i].createdAt == t[i].createdAt)
    ensures !Revives(t, e) ==> forall i | i in t && NonFailed(Next(t, e)[i]) :: NonFailed(t[i])
  {
  }

  // ---------------------------------------------------------------------
  // The throttle bounds every window of time
  // ---------------------------------------------------------------------

  function Max(a: int, b: int): int {
    if a < b then b else a
  }

  ghost predicate WindowsBounded(t: Table, server: Id, throttle: Throttle) {
    forall from: Time, to: Time | to == from + throttle.period ::
      |Window(t, server, from, to)| <= Max(throttle.limit, 0)
  }

  predicate Past(t: Table, now: Time) {
    forall i | i in t :: t[i].createdAt <= now
  }

  /** The clock of an event; events without a clock may happen at any time. */
  function Clock(e: Event, before: Time): Time {
    if e.Initiate? then e.call.now else before
  }

  /** A window either gains nothing, or the throttle saw all the rest of it. */
  lemma OneWindow(t: Table, e: Event, server: Id, throttle: Throttle, now: Time, from: Time)
    requires Enabled(t, e) && !(Revives(t, e) && t[e.target].server == server)
    requires throttle.period > 0
    requires e.Initiate? && e.call.server == server ==> e.call.throttle == throttle
    requires Past(t, now) && now <= Clock(e, now)
    ensures |Window(Next(t, e), server, from, from + throttle.period)|
      <= Max(throttle.limit, |Window(t, server, from, from + throttle.period)|)
  {
    var to := from + throttle.period;
    var before, after := Window(t, server, from, to), Window(Next(t, e), server, from, to);
    if e.Initiate? && e.id in after {
      var since := Since(t, server, e.call.now - throttle.period);
      assert after - {e.id} <= since;
      SubsetSize(after - {e.id}, since);
      assert !Throttled(t, e.call);
    } else {
      WindowGainsNothing(t, e, server, from, to);
      SubsetSize(after, before);
    }
  }

  lemma WindowGainsNothing(t: Table, e: Event, server: Id, from: Time, to: Time)
    requires Enabled(t, e) && !(Revives(t, e) && t[e.target].server == server)
    requires e.Initiate? ==> e.id !in Window(Next(t, e), server, from, to)
    ensures Window(Next(t, e), server, from, to) <= Window(t, server, from, to)
  {
    RowsPersist(t, e);
    if e.Initiate? {
      assert forall i | i in Next(t, e) :: i == e.id || i in t;
    }
  }

  lemma WindowStep(t: Table, e: Event, server: Id, throttle: Throttle, now: Time)
    requires Enabled(t, e) && !(Revives(t, e) && t[e.target].server == server)
    requires throttle.period > 0
    requires e.Initiate? && e.call.server == server ==> e.call.throttle == throttle
    requires Past(t, now) && now <= Clock(e, now)
    requires WindowsBounded(t, server, throttle)
    ensures WindowsBounded(Next(t, e), server, throttle) && Past(Next(t, e), Clock(e, now))
  {
    forall from: Time, to: Time | to == from + throttle.period
      ensures |Window(Next(t, e), server, from, to)| <= Max(throttle.limit, 0)
    {
      OneWindow(t, e, server, throttle, now, from);
      assert |Window(t, server, from, to)| <= Max(throttle.limit, 0);
    }
    RowsPersist(t, e);
  }

  /** There is room for one more backup in every window around the creation of `i`. */
  ghost predicate HasRoom(t: Table, i: Id, throttle: Throttle)
    requires i in t
  {
    forall from: Time, to: Time | to == from + throttle.period && from <= t[i].createdAt <= to ::
      |Window(t, t[i].server, from, to)| < Max(throttle.limit, 0)
  }

  /** A late report of success is harmless exactly when there is room for the revived backup. */
  lemma RevivalKeepsWindowsIff(t: Table, e: Event, throttle: Throttle)
    requires Enabled(t, e) && Revives(t, e) && WindowsBounded(t, t[e.target].server, throttle)
    ensures WindowsBounded(Next(t, e), t[e.target].server, throttle) <==> HasRoom(t, e.target, throttle)
  {
    var t', i, server := Next(t, e), e.target, t[e.target].server;
    forall from: Time, to: Time | to == from + throttle.period
      ensures |Window(t', server, from, to)| ==
        |Window(t, server, from, to)| + if from <= t[i].createdAt <= to then 1 else 0
    {
      assert i !in Window(t, server, from, to);
      if from <= t[i].createdAt <= to {
        assert Window(t', server, from, to) == Window(t, server, from, to) + {i};
      } else {
        assert Window(t', server, from, to) == Window(t, server, from, to);
      }
    }
    if WindowsBounded(t', server, throttle) {
      forall from: Time, to: Time | to == from + throttle.period && from <= t[i].createdAt <= to
        ensures |Window(t, server, from, to)| < Max(throttle.limit, 0)
      {
        assert |Window(t', server, from, to)| <= Max(throttle.limit, 0);
      }
    }
  }

  /** The step does not revive a backup of the server beyond the bound. */
  ghost predicate Harmless(t: Table, e: Event, server: Id, throttle: Throttle)
    requires Enabled(t, e)
  {
    Revives(t, e) && t[e.target].server == server ==> HasRoom(t, e.target, throttle)
  }

  /** One step keeps the bound on windows exactly when it is harmless. */
  lemma WindowStepIff(t: Table, e: Event, server: Id, throttle: Throttle, now: Time)
    requires Enabled(t, e) && throttle.period > 0
    requires e.Initiate? && e.call.server == server ==> e.call.throttle == throttle
    requires Past(t, now) && now <= Clock(e, now)
    requires WindowsBounded(t, server, throttle)
    ensures WindowsBounded(Next(t, e), server, throttle) <==> Harmless(t, e, server, throttle)
    ensures Past(Next(t, e), Clock(e, now))
  {
    if Revives(t, e) && t[e.target].server == server {
      RevivalKeepsWindowsIff(t, e, throttle);
    } else {
      WindowStep(t, e, server, throttle, now);
    }
  }

  /** The clock of a run is the time of the latest initiation. */
  function ClockAt(es: seq<Event>, k: nat, start: Time): Time
    requires k <= |es|
  {
    if k == 0 then start else Clock(es[k - 1], ClockAt(es, k - 1, start))
  }

  /** A run under a fixed throttle, with a clock that never runs backwards. */
  ghost predicate Timed(ts: seq<Table>, es: seq<Event>, server: Id, throttle: Throttle, start: Time) {
    && Run(ts, es) && throttle.period > 0
    && (forall j | 0 <= j < |es| && es[j].Initiate? ::
      && (es[j].call.server == server ==> es[j].call.throttle == throttle)
      && ClockAt(es, j, start) <= es[j].call.now)
    && Past(ts[0], start) && WindowsBounded(ts[0], server, throttle)
  }

  lemma {:induction false} WindowsUpTo(
      ts: seq<Table>, es: seq<Event>, server: Id, throttle: Throttle, start: Time, k: nat)
    requires Timed(ts, es, server, throttle, start) && k < |ts|
    requires forall j | 0 <= j < |es| :: Harmless(ts[j], es[j], server, throttle)
    ensures WindowsBounded(ts[k], server, throttle) && Past(ts[k], ClockAt(es, k, start))
  {
    if k > 0 {
      WindowsUpTo(ts, es, server, throttle, start, k - 1);
      WindowStepIff(ts[k - 1], es[k - 1], server, throttle, ClockAt(es, k - 1, start));
    }
  }

  lemma {:induction false} PastUpTo(ts: seq<Table>, es: seq<Event>, server: Id, throttle: Throttle, start: Time, k: nat)
    requires Timed(ts, es, server, throttle, start) && k < |ts|
    ensures Past(ts[k], ClockAt(es, k, start))
  {
    if k > 0 {
      PastUpTo(ts, es, server, throttle, start, k - 1);
      RowsPersist(ts[k - 1], es[k - 1]);
    }
  }

  /**
    Sliding window: no closed window of `period` seconds of any state of a run
    holds more than `limit` non-failed backups of a server, counting deleted
    ones, whatever is deleted, overridden, completed or locked in between --
    exactly when no failed backup is later reported successful without room.
  */
  lemma SlidingWindowIff(ts: seq<Table>, es: seq<Event>, server: Id, throttle: Throttle, start: Time)
    requires Timed(ts, es, server, throttle, start)
    ensures (forall k | 0 <= k < |ts| :: WindowsBounded(ts[k], server, throttle))
      <==> (forall j | 0 <= j < |es| :: Harmless(ts[j], es[j], server, throttle))
  {
    if forall j | 0 <= j < |es| :: Harmless(ts[j], es[j], server, throttle) {
      forall k | 0 <= k < |ts|
        ensures WindowsBounded(ts[k], server, throttle)
      {
        WindowsUpTo(ts, es, server, throttle, start, k);
      }
    }
    if forall k | 0 <= k < |ts| :: WindowsBounded(ts[k], server, throttle) {
      forall j | 0 <= j < |es|
        ensures Harmless(ts[j], es[j], server, throttle)
      {
        PastUpTo(ts, es, server, throttle, start, j);
        assert WindowsBounded(ts[j], server, throttle) && WindowsBounded(ts[j + 1], server, throttle);
        WindowStepIff(ts[j], es[j], server, throttle, ClockAt(es, j, start));
      }
    }
  }

  /** In particular when failure is final. */
  lemma SlidingWindow(ts: seq<Table>, es: seq<Event>, server: Id, throttle: Throttle, start: Time, k: nat)
    requires Timed(ts, es, server, throttle, start) && NoRevival(ts, es) && k < |ts|
    ensures WindowsBounded(ts[k], server, throttle)
  {
    assert forall j | 0 <= j < |es| :: Harmless(ts[j], es[j], server, throttle) by {
      assert forall j | 0 <= j < |es| :: !Revives(ts[j], es[j]);
    }
    SlidingWindowIff(ts, es, server, throttle, start);
  }

  /**
    The condition can fail: the daemon may report success for a backup that the
    panel had counted as failed, and then two backups share a window that admits one.
  */
  lemma RevivalBreaksTheWindow()
    ensures exists ts: seq<Table>, es: seq<Event> ::
      && Timed(ts, es, 7, Throttle(1, 600), 0) && ts[0] == map[]
      && (exists j | 0 <= j < |es| :: Revives(ts[j], es[j]) && !Harmless(ts[j], es[j], 7, Throttle(1, 600)))
      && !WindowsBounded(ts[|es|], 7, Throttle(1, 600))
  {
    var throttle := Throttle(1, 600);
    var c0 := Call(7, 5, false, false, [], false, 0, throttle, Done, true);
    var c1 := c0.(now := 1);
    var failed := Fresh(c0).(completedAt := Some(0));
    var revived := failed.(completedAt := Some(2), successful := true);
    var t0: Table := map[];
    var t1: Table := map[1 := Fresh(c0)];
    var t2: Table := map[1 := failed];
    var t3: Table := map[1 := failed, 2 := Fresh(c1)];
    var t4: Table := map[1 := revived, 2 := Fresh(c1)];
    var e0, e1, e2, e3 := Initiate(c0, None, 1), Report(1, false, 0), Initiate(c1, None, 2), Report(1, true, 2);
    assert Since(t0, 7, -600) == {} && Live(t0, 7) == {};
    assert Enabled(t0, e0) && t1 == Next(t0, e0);
    assert Enabled(t1, e1) && t2 == Next(t1, e1);
    assert Since(t2, 7, -599) == {} && Live(t2, 7) == {};
    assert Enabled(t2, e2) && t3 == Next(t2, e2);
    assert Enabled(t3, e3) && t4 == Next(t3, e3);
    var ts, es := [t0, t1, t2, t3, t4], [e0, e1, e2, e3];
    assert Run(ts, es);
    TwoInAWindow(t4, 7, throttle);
    NothingInAnyWindow(7, throttle);
    assert ClockAt(es, 0, 0) == 0 && ClockAt(es, 1, 0) == 0 && ClockAt(es, 2, 0) == 0;
    assert Timed(ts, es, 7, throttle, 0);
    RoomIsTaken(t3, throttle);
    assert Revives(ts[3], es[3]) && !Harmless(ts[3], es[3], 7, throttle);
  }

  lemma NothingInAnyWindow(server: Id, throttle: Throttle)
    ensures WindowsBounded(map[], server, throttle)
  {
    forall from: Time, to: Time | to == from + throttle.period
      ensures |Window(map[], server, from, to)| <= Max(throttle.limit, 0)
    {
      assert Window(map[], server, from, to) == {};
    }
  }

  lemma RoomIsTaken(t: Table, throttle: Throttle)
    requires throttle == Throttle(1, 600) && 1 in t && 2 in t && t[1].createdAt == 0 && t[2].createdAt == 1
    requires t[1].server == t[2].server && NonFailed(t[2])
    ensures !HasRoom(t, 1, throttle)
  {
    var window := Window(t, t[1].server, 0, 0 + throttle.period);
    assert {2} <= window;
    SubsetSize({2}, window);
  }

  lemma TwoInAWindow(t: Table, server: Id, throttle: Throttle)
    requires throttle == Throttle(1, 600) && 1 in t && 2 in t && t[1].createdAt == 0 && t[2].createdAt == 1
    requires t[1].server == server == t[2].server && NonFailed(t[1]) && NonFailed(t[2])
    ensures !WindowsBounded(t, server, throttle)
  {
    var window := Window(t, server, 0, 0 + throttle.period);
    assert {1, 2} <= window;
    SubsetSize({1, 2}, window);
  }

  // ---------------------------------------------------------------------
  // The limit and the lock
  // ---------------------------------------------------------------------

  lemma OtherEventsAddNothing(t: Table, e: Event, server: Id)
    requires Enabled(t, e) && !Revives(t, e)
    requires e.Initiate? ==> e.call.server != server
    ensures Live(Next(t, e), server) <= Live(t, server)
  {
    RowsPersist(t, e);
  }

  lemma InitiationReplacesOrAdds(t: Table, c: Call, victim: Option<Id>, id: Id)
    requires Victim(t, c, victim) && id !in t
    ensures var after := Live(Initiated(t, c, victim, id).1, c.server);
      after <= Live(t, c.server) || (Initiated(t, c, victim, id).0.Success? &&
        (if victim.Some? then victim.value in Live(t, c.server) && after == Live(t, c.server) - {victim.value} + {id}
         else after == Live(t, c.server) + {id}))
  {
    var t' := Initiated(t, c, victim, id).1;
    if victim.Some? {
      var evicted := Evicted(t, victim);
      assert Live(evicted, c.server) == Live(t, c.server) - {victim.value};
      if id in t' {
        assert Live(t', c.server) == Live(evicted, c.server) + {id};
      }
    } else if id in t' {
      assert Live(t', c.server) == Live(t, c.server) + {id};
    }
  }

  /** Each initiation leaves at most `max(limit, count before)` backups; nothing else adds one. */
  lemma CapStep(t: Table, e: Event, server: Id)
    requires Enabled(t, e) && !Revives(t, e)
    ensures |Live(Next(t, e), server)| <=
      (if e.Initiate? && e.call.server == server then Max(e.call.backupLimit, |Live(t, server)|) else |Live(t, server)|)
  {
    var before, after := Live(t, server), Live(Next(t, e), server);
    if e.Initiate? && e.call.server == server {
      InitiationReplacesOrAdds(t, e.call, e.victim, e.id);
      if after <= before {
        SubsetSize(after, before);
      }
    } else {
      OtherEventsAddNothing(t, e, server);
      SubsetSize(after, before);
    }
  }

  /** A late report of success adds one to the count of its server, and nothing else changes it. */
  lemma RevivalAddsOne(t: Table, e: Event, server: Id)
    requires Enabled(t, e) && Revives(t, e)
    ensures |Live(Next(t, e), server)| == |Live(t, server)| + if t[e.target].server == server then 1 else 0
  {
    NonFailedIsStatus(t[e.target]);
    if t[e.target].server == server {
      assert e.target !in Live(t, server) && Live(Next(t, e), server) == Live(t, server) + {e.target};
    } else {
      assert Live(Next(t, e), server) == Live(t, server);
    }
  }

  /** The run gives this server one limit. */
  ghost predicate Limited(ts: seq<Table>, es: seq<Event>, server: Id, limit: int) {
    Run(ts, es) && forall j | 0 <= j < |es| && es[j].Initiate? && es[j].call.server == server ::
      es[j].call.backupLimit == limit
  }

  /** No failed backup of the server is revived while `cap` live ones are there. */
  ghost predicate RevivesBelow(ts: seq<Table>, es: seq<Event>, server: Id, cap: int)
    requires Run(ts, es)
  {
    forall j | 0 <= j < |es| && Revives(ts[j], es[j]) && ts[j][es[j].target].server == server ::
      |Live(ts[j], server)| < cap
  }

  lemma {:induction false} CapUpTo(ts: seq<Table>, es: seq<Event>, server: Id, limit: int, k: nat)
    requires Limited(ts, es, server, limit) && k < |ts|
    requires RevivesBelow(ts, es, server, Max(limit, |Live(ts[0], server)|))
    ensures |Live(ts[k], server)| <= Max(limit, |Live(ts[0], server)|)
  {
    if k > 0 {
      CapUpTo(ts, es, server, limit, k - 1);
      if Revives(ts[k - 1], es[k - 1]) {
        RevivalAddsOne(ts[k - 1], es[k - 1], server);
      } else {
        CapStep(ts[k - 1], es[k - 1], server);
      }
    }
  }

  /**
    Under a fixed limit the count never exceeds it, or what was there at the
    start, through any mix of events -- exactly when no backup is revived at the cap.
  */
  lemma CapHoldsIff(ts: seq<Table>, es: seq<Event>, server: Id, limit: int)
    requires Limited(ts, es, server, limit)
    ensures (forall k | 0 <= k < |ts| :: |Live(ts[k], server)| <= Max(limit, |Live(ts[0], server)|))
      <==> RevivesBelow(ts, es, server, Max(limit, |Live(ts[0], server)|))
  {
    var cap := Max(limit, |Live(ts[0], server)|);
    if RevivesBelow(ts, es, server, cap) {
      forall k | 0 <= k < |ts|
        ensures |Live(ts[k], server)| <= cap
      {
        CapUpTo(ts, es, server, limit, k);
      }
    }
    if forall k | 0 <= k < |ts| :: |Live(ts[k], server)| <= cap {
      forall j | 0 <= j < |es| && Revives(ts[j], es[j]) && ts[j][es[j].target].server == server
        ensures |Live(ts[j], server)| < cap
      {
        RevivalAddsOne(ts[j], es[j], server);
        assert |Live(ts[j + 1], server)| <= cap;
      }
    }
  }

  /**
    A deletion takes a backup exactly when it is unlocked, failed or unfinished,
    and its storage accepts: S3 only with the archive, the daemon also without.
  */
  lemma DeletedIff(t: Table, i: Id, reply: Reply)
    requires i in t && !t[i].deleted
    ensures var t' := Next(t, Delete(i, reply));
      && t'.Keys == t.Keys && (forall j | j in t && j != i :: t'[j] == t[j])
      && (t'[i].deleted <==>
        (!t[i].locked || !t[i].successful || t[i].completedAt.None?)
        && (reply == Done || (reply == NotFound && !t[i].onS3)))
      && t'[i] == t[i].(deleted := t'[i].deleted)
  {
  }

  /**
    A late report of success finds the lock open after a report of failure, but
    as it was after the command that gave up on the backup.
  */
  lemma LockAfterRevival(t: Table, i: Id, at: Time, later: Time)
    requires i in t && !t[i].deleted && t[i].completedAt.None? && !t[i].successful
    ensures var reported := Next(t, Report(i, false, at));
      var pruned := Next(t, Prune(i, at));
      && Revives(reported, Report(i, true, later)) && Revives(pruned, Report(i, true, later))
      && Next(reported, Report(i, true, later))
        == t[i := t[i].(completedAt := Some(later), successful := true, locked := false)]
      && Next(pruned, Report(i, true, later)) == t[i := t[i].(completedAt := Some(later), successful := true)]
  {
  }

  /** A locked, successful backup keeps its row exactly until it is unlocked. */
  lemma {:induction false} LockedBackupSurvives(ts: seq<Table>, es: seq<Event>, i: Id, k: nat)
    requires Run(ts, es) && k < |ts|
    requires i in ts[0] && !ts[0][i].deleted
    requires ts[0][i].locked && ts[0][i].successful && ts[0][i].completedAt.Some?
    requires forall j | 0 <= j < |es| :: es[j] != SetLock(i, false)
    ensures i in ts[k] && ts[k][i] == ts[0][i]
  {
    if k > 0 {
      LockedBackupSurvives(ts, es, i, k - 1);
    }
  }

  // ---------------------------------------------------------------------
  // Rotation is a bounded first-in-first-out queue
  // ---------------------------------------------------------------------

  /** The last `n` elements of a sequence, or all of them. */
  function Last<T>(s: seq<T>, n: nat): seq<T> {
    if |s| <= n then s else s[|s| - n..]
  }

  /** Backups of a server in the order in which a run created them. */
  function Created(es: seq<Event>, server: Id, k: nat): seq<Id>
    requires k <= |es|
  {
    if k == 0 then []
    else
      var order := Created(es, server, k - 1);
      if es[k - 1].Initiate? && es[k - 1].call.server == server then order + [es[k - 1].id] else order
  }

  /** A call that neither the throttle nor the daemon turns down. */
  predicate Smooth(t: Table, c: Call, limit: nat) {
    && !Throttled(t, c) && c.override && !c.locked && c.backupLimit == limit
    && c.deleteReply == Done && c.daemonAccepts
  }

  /** Events of a run of overriding initiations, with other servers doing anything. */
  predicate RotationEvent(t: Table, e: Event, server: Id, limit: nat)
    requires Enabled(t, e)
  {
    match e
    case Initiate(c, _, _) =>
      c.server == server ==>
        (Smooth(t, c, limit) && forall i | i in t && t[i].server == server :: t[i].createdAt < c.now)
    case Report(i, success, _) => t[i].server == server ==> success
    case Delete(i, _) => t[i].server != server
    case SetLock(i, _) => t[i].server != server
    case Prune(i, _) => t[i].server != server
  }

  /** The rows of the server in the order of their creation: none has failed, none is locked. */
  ghost predicate Recent(t: Table, server: Id, order: seq<Id>) {
    && (forall k | 0 <= k < |order| ::
      order[k] in t && t[order[k]].server == server && NonFailed(t[order[k]]) && !t[order[k]].locked)
    && (forall j, k | 0 <= j < k < |order| :: t[order[j]].createdAt < t[order[k]].createdAt)
    && (forall i | i in t && t[i].server == server :: i in order)
  }

  /** The queue holds the most recent backups, oldest first. */
  ghost predicate Queue(t: Table, server: Id, order: seq<Id>, limit: nat) {
    Distinct(order) && Recent(t, server, order) && Live(t, server) == Elements(Last(order, limit))
  }

  lemma QueueSize(order: seq<Id>, limit: nat)
    requires Distinct(order)
    ensures |Elements(Last(order, limit))| == |Last(order, limit)| == (if |order| <= limit then |order| else limit)
  {
    DistinctSize(Last(order, limit));
  }

  /** The rows of one server are the same, up to the time of completion. */
  ghost predicate SameRows(t: Table, t': Table, server: Id) {
    && (forall i | i in t && t[i].server == server ::
      i in t' && NonFailed(t[i]) ==> NonFailed(t'[i]))
    && (forall i | i in t && t[i].server == server ::
      i in t' && t'[i].server == server && t'[i].createdAt == t[i].createdAt
      && t'[i].deleted == t[i].deleted && (t'[i].locked ==> t[i].locked))
    && (forall i | i in t' && t'[i].server == server :: i in t && t[i].server == server)
  }

  lemma OthersLeaveRows(t: Table, e: Event, server: Id, limit: nat)
    requires Enabled(t, e) && RotationEvent(t, e, server, limit)
    requires !(e.Initiate? && e.call.server == server)
    ensures SameRows(t, Next(t, e), server)
  {
    if e.Initiate? && e.victim.Some? {
      assert t[e.victim.value].server == e.call.server;
    }
  }

  lemma QueueTransfer(t: Table, t': Table, server: Id, order: seq<Id>, limit: nat)
    requires SameRows(t, t', server) && Queue(t, server, order, limit)
    ensures Queue(t', server, order, limit)
  {
    assert forall i | i in t && t[i].server == server :: NonFailed(t[i]);
    assert Live(t', server) == Live(t, server);
  }

  lemma AllEvictable(t: Table, server: Id, order: seq<Id>, limit: nat)
    requires Queue(t, server, order, limit)
    ensures Evictable(t, server) == Live(t, server)
  {
    forall i | i in Live(t, server)
      ensures i in Evictable(t, server)
    {
      var k :| 0 <= k < |order| && order[k] == i;
    }
  }

  lemma QueueVictim(t: Table, c: Call, victim: Option<Id>, order: seq<Id>, limit: nat)
    requires limit > 0 && Smooth(t, c, limit) && Victim(t, c, victim)
    requires Queue(t, c.server, order, limit)
    ensures victim == (if |order| < limit then None else Some(order[|order| - limit]))
  {
    QueueSize(order, limit);
    AllEvictable(t, c.server, order, limit);
    if |order| >= limit {
      var queue := Last(order, limit);
      assert queue[0] == order[|order| - limit] && queue[0] in Live(t, c.server);
      assert victim.Some?;
      var p :| 0 <= p < |queue| && queue[p] == victim.value;
      assert queue[p] == order[|order| - limit + p];
    }
  }

  lemma LastStep(order: seq<Id>, id: Id, limit: nat)
    requires Distinct(order) && id !in order && limit > 0
    ensures Elements(Last(order + [id], limit)) ==
      (if |order| < limit then Elements(Last(order, limit)) + {id}
       else Elements(Last(order, limit)) - {order[|order| - limit]} + {id})
  {
    var queue := Last(order, limit);
    if |order| < limit {
      assert Last(order + [id], limit) == order + [id];
    } else {
      var oldest := order[|order| - limit];
      assert queue == [oldest] + queue[1..];
      assert Last(order + [id], limit) == queue[1..] + [id];
      assert oldest !in queue[1..] && id !in queue;
    }
  }

  lemma RecentAfter(t: Table, c: Call, victim: Option<Id>, id: Id, order: seq<Id>)
    requires Recent(t, c.server, order) && id !in t && !c.locked && (victim.Some? ==> victim.value in t)
    requires forall i | i in t && t[i].server == c.server :: t[i].createdAt < c.now
    ensures Recent(Evicted(t, victim)[id := Fresh(c)], c.server, order + [id])
  {
    var t' := Evicted(t, victim)[id := Fresh(c)];
    var order' := order + [id];
    forall k | 0 <= k < |order'|
      ensures order'[k] in t' && t'[order'[k]].server == c.server && NonFailed(t'[order'[k]]) && !t'[order'[k]].locked
      ensures t'[order'[k]].createdAt == if k < |order| then t[order'[k]].createdAt else c.now
    {
      assert k < |order| ==> order'[k] == order[k] && order[k] in t;
    }
    forall i | i in t' && t'[i].server == c.server
      ensures i in order'
    {
      assert i != id ==> i in order;
      assert order'[|order|] == id;
    }
  }

  lemma QueueStep(t: Table, c: Call, victim: Option<Id>, id: Id, order: seq<Id>, limit: nat)
    requires limit > 0
    requires Victim(t, c, victim) && id !in t && Smooth(t, c, limit)
    requires forall i | i in t && t[i].server == c.server :: t[i].createdAt < c.now
    requires Queue(t, c.server, order, limit)
    ensures Queue(Initiated(t, c, victim, id).1, c.server, order + [id], limit)
  {
    QueueVictim(t, c, victim, order, limit);
    assert id !in order;
    assert !Blocked(t, c) by {
      QueueSize(order, limit);
      AllEvictable(t, c.server, order, limit);
    }
    InitiationSucceeds(t, c, victim, id);
    RecentAfter(t, c, victim, id, order);
    LastStep(order, id, limit);
    assert Distinct(order + [id]);
  }

  lemma InitiationSucceeds(t: Table, c: Call, victim: Option<Id>, id: Id)
    requires !Throttled(t, c) && c.daemonAccepts && c.deleteReply == Done
    requires Victim(t, c, victim) && id !in t && !Blocked(t, c)
    ensures Initiated(t, c, victim, id) == (Success(id), Evicted(t, victim)[id := Fresh(c)])
    ensures Live(Initiated(t, c, victim, id).1, c.server) ==
      (if victim.Some? then Live(t, c.server) - {victim.value} + {id} else Live(t, c.server) + {id})
  {
    InitiationReplacesOrAdds(t, c, victim, id);
    assert id in Live(Initiated(t, c, victim, id).1, c.server);
  }

  /**
    Rotation refines a bounded queue: after any number of overriding
    initiations with limit `limit`, the live backups of the server are exactly
    the `limit` most recently created ones, or all of them while there are fewer.
  */
  lemma {:induction false} RotationIsFifo(ts: seq<Table>, es: seq<Event>, server: Id, limit: nat, k: nat)
    requires Run(ts, es) && k < |ts| && limit > 0
    requires forall i | i in ts[0] :: ts[0][i].server != server
    requires forall j | 0 <= j < |es| :: RotationEvent(ts[j], es[j], server, limit)
    ensures Queue(ts[k], server, Created(es, server, k), limit)
    ensures Live(ts[k], server) == Elements(Last(Created(es, server, k), limit))
  {
    if k == 0 {
      assert Live(ts[0], server) == {};
    } else {
      RotationIsFifo(ts, es, server, limit, k - 1);
      var order := Created(es, server, k - 1);
      match es[k - 1] {
        case Initiate(c, victim, id) =>
          if c.server == server {
            QueueStep(ts[k - 1], c, victim, id, order, limit);
          } else {
            OthersLeaveRows(ts[k - 1], es[k - 1], server, limit);
            QueueTransfer(ts[k - 1], ts[k], server, order, limit);
          }
        case _ =>
          OthersLeaveRows(ts[k - 1], es[k - 1], server, limit);
          QueueTransfer(ts[k - 1], ts[k], server, order, limit);
      }
    }
  }
}
