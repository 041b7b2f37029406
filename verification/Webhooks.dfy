/**
  The webhook cache: which webhook configurations listen to an event is cached
  per event, and model hooks refresh the entries a change may affect
  (app/Models/WebhookConfiguration.php, app/Listeners/DispatchWebhooks.php).
*/
module Webhooks {
  import opened Wrappers

  type Id = nat
  type Event = string

  datatype Configuration = Configuration(endpoint: string, description: string, events: seq<Event>, deleted: bool)

  type Table = map<Id, Configuration>

  /** The direct table query: live configurations whose events contain `e`. */
  function Query(t: Table, e: Event): Table {
    map i | i in t && !t[i].deleted && e in t[i].events :: t[i]
  }

  /** The events some live configuration listens to. */
  function Watched(t: Table): set<Event> {
    set i, e | i in t && !t[i].deleted && e in t[i].events :: e
  }

  /** The entries `webhooks.<event>` and the entry `watchedWebhooks`. */
  datatype Cache = Cache(hooks: map<Event, Table>, watched: Option<set<Event>>)

  /** Every entry that is present agrees with the table. */
  ghost predicate Coherent(t: Table, cache: Cache) {
    && (forall e | e in cache.hooks :: cache.hooks[e] == Query(t, e))
    && (cache.watched.Some? ==> cache.watched.value == Watched(t))
  }

  /** The cache after `updateCache` for some events. */
  function Refreshed(t: Table, cache: Cache, events: set<Event>): Cache {
    Cache(cache.hooks + (map e | e in events :: Query(t, e)), Some(Watched(t)))
  }

  /** An event is watched exactly when the query finds a listener. */
  lemma WatchedIffListener(t: Table, e: Event)
    ensures e in Watched(t) <==> Query(t, e) != map[]
  {
    if e in Watched(t) {
      var i :| i in t && !t[i].deleted && e in t[i].events;
      assert i in Query(t, e);
    }
    if Query(t, e) != map[] {
      var i :| i in Query(t, e);
    }
  }

  function EventsOf(c: Configuration): set<Event> {
    set e | e in c.events
  }

  // ---------------------------------------------------------------------
  // What the listener fires
  // ---------------------------------------------------------------------

  // Configurations are models too: writing one dispatches these events to the same listener.
  const CREATED: Event := "eloquent.created: App\\Models\\WebhookConfiguration"
  const UPDATED: Event := "eloquent.updated: App\\Models\\WebhookConfiguration"
  const DELETED: Event := "eloquent.deleted: App\\Models\\WebhookConfiguration"

  /** The entry that the listener reads, or loads. */
  function Entry(t: Table, cache: Cache, e: Event): Table {
    if e in cache.hooks then cache.hooks[e] else Query(t, e)
  }

  function Listening(entry: Table, e: Event): Table {
    map i | i in entry && e in entry[i].events :: entry[i]
  }

  /** What is fired for an event, whatever the cache holds. */
  function Fires(t: Table, cache: Cache, e: Event): Table {
    if e in cache.watched.GetOr(Watched(t)) then Listening(Entry(t, cache, e), e) else map[]
  }

  /** The listener remembers what it had to load. */
  function Remembered(t: Table, cache: Cache, e: Event): Cache {
    var watched := cache.watched.GetOr(Watched(t));
    Cache(if e in watched then cache.hooks[e := Entry(t, cache, e)] else cache.hooks, Some(watched))
  }

  /** With a coherent cache, exactly what the direct query names, and the cache stays coherent. */
  lemma CoherentFires(t: Table, cache: Cache, e: Event)
    requires Coherent(t, cache)
    ensures Fires(t, cache, e) == Query(t, e) && Coherent(t, Remembered(t, cache, e))
    ensures forall i :: i in Fires(t, cache, e) <==> i in t && !t[i].deleted && e in t[i].events
    ensures forall i | i in Fires(t, cache, e) :: Fires(t, cache, e)[i] == t[i]
  {
    WatchedIffListener(t, e);
  }

  /** Between a write and its hook: what the listener reads is not from before the write. */
  predicate ReadsFresh(t': Table, cache: Cache, e: Event) {
    match cache.watched
    case Some(watched) => e in watched && e !in cache.hooks
    case None => e !in cache.hooks || e !in Watched(t')
  }

  /** A dispatch after a write to the table, with the cache of before, answers for the table after or before. */
  lemma FiresAfterWrite(t: Table, t': Table, cache: Cache, e: Event)
    requires Coherent(t, cache)
    ensures Fires(t', cache, e) == if ReadsFresh(t', cache, e) then Query(t', e) else Query(t, e)
  {
    WatchedIffListener(t, e);
    WatchedIffListener(t', e);
    assert Listening(Query(t, e), e) == Query(t, e);
    assert Listening(Query(t', e), e) == Query(t', e);
  }

  /** It fires what the direct query names exactly when what it reads is fresh, or unchanged by the write. */
  lemma FiresAfterWriteIff(t: Table, t': Table, cache: Cache, e: Event)
    requires Coherent(t, cache)
    ensures Fires(t', cache, e) == Query(t', e) <==> ReadsFresh(t', cache, e) || Query(t, e) == Query(t', e)
    ensures Fires(t', cache, e).Keys == Query(t', e).Keys
      <==> ReadsFresh(t', cache, e) || Query(t, e).Keys == Query(t', e).Keys
  {
    FiresAfterWrite(t, t', cache, e);
  }

  /** A configuration that just stopped listening to its own event still gets it from a cached entry. */
  lemma DroppedEventStillFires(t: Table, i: Id, c: Configuration, cache: Cache, e: Event)
    requires Coherent(t, cache) && e in cache.hooks && cache.watched.Some?
    requires i in t && !t[i].deleted && e in t[i].events && e !in c.events
    ensures i in Fires(t[i := c], cache, e) && i !in Query(t[i := c], e)
  {
    FiresAfterWrite(t, t[i := c], cache, e);
  }

  /** One that just started listening, as the first, does not get it while the watched events are cached. */
  lemma AddedEventIsMissed(t: Table, i: Id, c: Configuration, cache: Cache, e: Event)
    requires Coherent(t, cache) && cache.watched.Some? && e !in Watched(t)
    requires !c.deleted && e in c.events
    ensures Fires(t[i := c], cache, e) == map[] && i in Query(t[i := c], e)
  {
  }

  // ---------------------------------------------------------------------
  // Which entries a change must refresh
  // ---------------------------------------------------------------------

  /**
    Refreshing some events after a change of the table keeps every coherent
    cache coherent exactly when no other event changed its listeners.
  */
  lemma RefreshSufficesIff(t: Table, t': Table, events: set<Event>)
    ensures (forall cache | Coherent(t, cache) :: Coherent(t', Refreshed(t', cache, events)))
      <==> (forall e | e !in events :: Query(t', e) == Query(t, e))
  {
    if forall cache | Coherent(t, cache) :: Coherent(t', Refreshed(t', cache, events)) {
      forall e | e !in events
        ensures Query(t', e) == Query(t, e)
      {
        var cache := Cache(map[e := Query(t, e)], None);
        assert Coherent(t, cache);
        assert Coherent(t', Refreshed(t', cache, events));
        assert e in Refreshed(t', cache, events).hooks;
      }
    }
  }

  /** The hook repairs the cache even if a dispatch has filled it between the write and the hook. */
  lemma RefreshAfterDispatch(t: Table, t': Table, cache: Cache, e: Event, events: set<Event>)
    requires Coherent(t, cache) && forall x | x !in events :: Query(t', x) == Query(t, x)
    ensures Coherent(t', Refreshed(t', cache, events))
    ensures Coherent(t', Refreshed(t', Remembered(t', cache, e), events))
  {
    var after := Refreshed(t', Remembered(t', cache, e), events);
    forall x | x in after.hooks
      ensures after.hooks[x] == Query(t', x)
    {
      assert x !in events ==> x in cache.hooks || x == e;
    }
  }

  /** Events outside the old and the new list of a configuration keep their listeners. */
  lemma OtherEventsKeepListeners(t: Table, i: Id, c: Configuration, e: Event)
    requires e !in c.events
    requires i in t ==> t[i].deleted || e !in t[i].events
    ensures Query(t[i := c], e) == Query(t, e)
  {
    var t' := t[i := c];
    assert forall j | j in t && j != i :: j in t' && t'[j] == t[j];
  }

  /** The new and the original events are what a save has to refresh. */
  lemma SaveIsRepaired(t: Table, i: Id, c: Configuration, cache: Cache, event: Option<Event>, events: seq<Event>)
    requires Coherent(t, cache) && events == c.events + if i in t then t[i].events else []
    ensures var t' := t[i := c];
      Coherent(t', Refreshed(t', if event.Some? then Remembered(t', cache, event.value) else cache, set e | e in events))
  {
    var t', changed := t[i := c], set e | e in events;
    forall e | e !in changed
      ensures Query(t', e) == Query(t, e)
    {
      assert e !in events;
      OtherEventsKeepListeners(t, i, c, e);
    }
    RefreshAfterDispatch(t, t', cache, event.GetOr(""), changed);
  }

  lemma RemovedKeepsListeners(t: Table, i: Id, e: Event)
    requires i in t && e !in t[i].events
    ensures Query(t - {i}, e) == Query(t, e)
  {
  }

  /**
    Why `saved` looks at the original events too: with the new events alone, a
    configuration that stops listening to `e` stays in a cached entry of `e`.
  */
  lemma NewEventsAloneAreNotEnough(t: Table, i: Id, c: Configuration, e: Event)
    requires i in t && !t[i].deleted && e in t[i].events && e !in c.events
    ensures exists cache :: Coherent(t, cache) && !Coherent(t[i := c], Refreshed(t[i := c], cache, EventsOf(c)))
  {
    var cache := Cache(map[e := Query(t, e)], None);
    assert i in Query(t, e) && i !in Query(t[i := c], e);
    var after := Refreshed(t[i := c], cache, EventsOf(c));
    assert e !in EventsOf(c) && e in after.hooks && after.hooks[e] == Query(t, e);
    assert Coherent(t, cache) && !Coherent(t[i := c], after);
  }

  // ---------------------------------------------------------------------
  // The store, its hooks and the listener
  // ---------------------------------------------------------------------

  class WebhookStore {
    var table: Table
    var hooks: map<Event, Table>
    var watched: Option<set<Event>>
    var lastId: Id

    function CacheView(): Cache
      reads this
    {
      Cache(hooks, watched)
    }

    /** Between any two operations the cache agrees with the table. */
    ghost predicate Valid()
      reads this
    {
      && (forall i | i in table :: i <= lastId)
      && Coherent(table, CacheView())
    }

    constructor ()
      ensures Valid() && table == map[]
    {
      table, hooks, watched, lastId := map[], map[], None, 0;
    }

    method UpdateCache(events: seq<Event>)
      modifies this`hooks, this`watched
      ensures CacheView() == Refreshed(table, old(CacheView()), set e | e in events)
    {
      for n := 0 to |events|
        invariant watched == old(watched)
        invariant hooks.Keys == old(hooks).Keys + set e | e in events[..n]
        invariant forall e | e in hooks ::
          hooks[e] == if e in events[..n] then Query(table, e) else old(hooks)[e]
      {
        assert events[..n + 1] == events[..n] + [events[n]];
        hooks := hooks[events[n] := Query(table, events[n])];
      }
      watched := Some(Watched(table));
      assert events[..|events|] == events;
      assert hooks == Refreshed(table, old(CacheView()), set e | e in events).hooks;
    }

    /**
      A save: the row is written, then its own event is dispatched, if there is
      one, and only then the `saved` hook refreshes the cache. The original
      events are empty for a new row.
    */
    method Save(i: Id, c: Configuration, event: Option<Event>) returns (fired: Table)
      requires i <= lastId
      requires Valid()
      modifies this`table, this`hooks, this`watched
      ensures Valid() && table == old(table)[i := c]
      ensures fired == if event.Some? then Fires(table, old(CacheView()), event.value) else map[]
    {
      var original := if i in table then table[i].events else [];
      SaveIsRepaired(table, i, c, CacheView(), event, c.events + original);
      table := table[i := c];
      fired := map[];
      if event.Some? {
        fired := Dispatch(event.value);
      }
      UpdateCache(c.events + original);
    }

    method Create(endpoint: string, description: string, events: seq<Event>) returns (i: Id, fired: Table)
      requires Valid()
      modifies this
      ensures Valid() && i !in old(table)
      ensures table == old(table)[i := Configuration(endpoint, description, events, false)]
      ensures fired == Fires(table, old(CacheView()), CREATED)
    {
      lastId := lastId + 1;
      i := lastId;
      fired := Save(i, Configuration(endpoint, description, events, false), Some(CREATED));
    }

    /** A row that does not change is not updated, but saved all the same. */
    method Update(i: Id, endpoint: string, description: string, events: seq<Event>) returns (fired: Table)
      requires Valid() && i in table
      modifies this
      ensures Valid()
      ensures table == old(table)[i := Configuration(endpoint, description, events, old(table)[i].deleted)]
      ensures fired == if table[i] != old(table)[i] then Fires(table, old(CacheView()), UPDATED) else map[]
    {
      var c := Configuration(endpoint, description, events, table[i].deleted);
      fired := Save(i, c, if c != table[i] then Some(UPDATED) else None);
    }

    /** A soft delete does not save; the `deleted` hook comes first and the listener after it. */
    method Delete(i: Id) returns (fired: Table)
      requires Valid() && i in table
      modifies this
      ensures Valid() && table == old(table)[i := old(table)[i].(deleted := true)]
      ensures fired == Query(table, DELETED)
    {
      ghost var t := table;
      var c := table[i].(deleted := true);
      table := table[i := c];
      UpdateCache(c.events);
      forall e | e !in set x | x in c.events
        ensures Query(table, e) == Query(t, e)
      {
        OtherEventsKeepListeners(t, i, c, e);
      }
      RefreshSufficesIff(t, table, set e | e in c.events);
      fired := Dispatch(DELETED);
    }

    method ForceDelete(i: Id) returns (fired: Table)
      requires Valid() && i in table
      modifies this
      ensures Valid() && table == old(table) - {i}
      ensures fired == Query(table, DELETED)
    {
      ghost var t := table;
      var events := table[i].events;
      table := table - {i};
      UpdateCache(events);
      forall e | e !in set x | x in events
        ensures Query(table, e) == Query(t, e)
      {
        RemovedKeepsListeners(t, i, e);
      }
      RefreshSufficesIff(t, table, set e | e in events);
      fired := Dispatch(DELETED);
    }

    /** Restoring a row saves it. */
    method Restore(i: Id) returns (fired: Table)
      requires Valid() && i in table
      modifies this
      ensures Valid() && table == old(table)[i := old(table)[i].(deleted := false)]
      ensures fired == if old(table)[i].deleted then Fires(table, old(CacheView()), UPDATED) else map[]
    {
      fired := Save(i, table[i].(deleted := false), if table[i].deleted then Some(UPDATED) else None);
    }

    /** Any entry of the cache may disappear at any time. */
    method Evict(events: set<Event>, alsoWatched: bool)
      requires Valid()
      modifies this`hooks, this`watched
      ensures Valid() && hooks == old(hooks) - events
      ensures watched == if alsoWatched then None else old(watched)
    {
      hooks := hooks - events;
      if alsoWatched {
        watched := None;
      }
    }

    method EventIsWatched(e: Event) returns (r: bool)
      modifies this`watched
      ensures r <==> e in old(watched).GetOr(Watched(table))
      ensures watched == Some(old(watched).GetOr(Watched(table)))
    {
      if watched.None? {
        watched := Some(Watched(table));
      }
      r := e in watched.value;
    }

    /** The listener, in any state of the cache; when the cache is coherent, it fires what the direct query names. */
    method Dispatch(e: Event) returns (fired: Table)
      modifies this`hooks, this`watched
      ensures fired == Fires(table, old(CacheView()), e) && CacheView() == Remembered(table, old(CacheView()), e)
      ensures forall i | i in fired :: e in fired[i].events
      ensures old(Valid()) ==> Valid() && fired == Query(table, e)
      ensures old(Valid()) ==> forall i :: i in fired <==> i in table && !table[i].deleted && e in table[i].events
      ensures old(Valid()) ==> forall i | i in fired :: fired[i] == table[i]
    {
      if Coherent(table, CacheView()) {
        CoherentFires(table, CacheView(), e);
      }
      fired := map[];
      var isWatched := EventIsWatched(e);
      if !isWatched {
        return;
      }
      if e !in hooks {
        hooks := hooks[e := Query(table, e)];
      } else {
        assert hooks[e := hooks[e]] == hooks;
      }
      var matching := hooks[e];
      fired := Fire(matching, e);
    }

    /** The loop over the cached configurations. */
    static method Fire(matching: Table, e: Event) returns (fired: Table)
      ensures fired == Listening(matching, e)
    {
      fired := map[];
      var todo := matching.Keys;
      while todo != {}
        invariant todo <= matching.Keys
        invariant fired == map i | i in matching && i !in todo && e in matching[i].events :: matching[i]
        decreases |todo|
      {
        var i :| i in todo;
        if e in matching[i].events {
          fired := fired[i := matching[i]];
        }
        todo := todo - {i};
      }
    }
  }
}
