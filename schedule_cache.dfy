/**
 * The client's cache of the schedules list and the mutation hooks that touch it:
 * the optimistic "toggle completed" coordinator (cancel in-flight reads, snapshot,
 * rewrite, restore on error, invalidate when settled) and the add/remove hooks,
 * which invalidate only on success.
 */
module ScheduleCache {
  import opened Common

  /** A cached schedule, as the client's `Schedule` interface declares it. */
  datatype Schedule = Schedule(
    id: string, locationId: string, note: Option<string>, completed: bool, name: string, address: string)

  /**
   * The optimistic rewrite `items.map(item => item.id === id ? { ...item, completed } : item)`:
   * each entry with the target id gets the requested flag, every other field and
   * every other entry stays as it was, and the order is kept.
   */
  function MarkCompleted(items: seq<Schedule>, id: string, completed: bool): (r: seq<Schedule>)
    ensures |r| == |items|
    ensures forall i :: 0 <= i < |items| && items[i].id == id ==>
              r[i].completed == completed && r[i].(completed := items[i].completed) == items[i]
    ensures forall i :: 0 <= i < |items| && items[i].id != id ==> r[i] == items[i]
  {
    if items == [] then []
    else
      var head := if items[0].id == id then items[0].(completed := completed) else items[0];
      [head] + MarkCompleted(items[1..], id, completed)
  }

  /**
   * The updater given to `setQueryData`: an empty slot is handed back as it is (so the
   * cache is left alone); a list keeps its entries in order, and the target's entries
   * carry the requested flag.
   */
  function ToggleUpdater(cached: Option<seq<Schedule>>, target: Schedule): (r: Option<seq<Schedule>>)
    ensures cached.None? ==> r == cached
    ensures r.Some? <==> cached.Some?
    ensures r.Some? ==> |r.value| == |cached.value|
    ensures r.Some? ==> forall i :: 0 <= i < |r.value| ==>
              && (cached.value[i].id == target.id ==> r.value[i] == cached.value[i].(completed := target.completed))
              && (cached.value[i].id != target.id ==> r.value[i] == cached.value[i])
  {
    match cached
    case None => None
    case Some(items) => Some(MarkCompleted(items, target.id, target.completed))
  }

  /** Toggling twice is the same as toggling once with the second value: the last write wins. */
  lemma {:induction false} MarkCompletedLastWins(items: seq<Schedule>, id: string, first: bool, second: bool)
    ensures MarkCompleted(MarkCompleted(items, id, first), id, second) == MarkCompleted(items, id, second)
  {
    if items != [] {
      MarkCompletedLastWins(items[1..], id, first, second);
    }
  }

  /** Writing back the flags every matching entry already has changes nothing. */
  lemma {:induction false} MarkCompletedUnchanged(items: seq<Schedule>, id: string, completed: bool)
    requires forall i :: 0 <= i < |items| && items[i].id == id ==> items[i].completed == completed
    ensures MarkCompleted(items, id, completed) == items
  {
    if items != [] {
      MarkCompletedUnchanged(items[1..], id, completed);
    }
  }

  /**
   * The rewrite has an inverse: toggling to any value and then back to the value the
   * matching entries held restores the list.
   */
  lemma MarkCompletedUndo(items: seq<Schedule>, id: string, was: bool, completed: bool)
    requires forall i :: 0 <= i < |items| && items[i].id == id ==> items[i].completed == was
    ensures MarkCompleted(MarkCompleted(items, id, completed), id, was) == items
  {
    MarkCompletedLastWins(items, id, completed, was);
    MarkCompletedUnchanged(items, id, was);
  }

  /** What the cache records of the calls made on the schedules key. */
  datatype CacheEvent = Cancelled | Invalidated

  /** The query client's entry for the key `["schedules"]`. */
  class SchedulesQuery {
    /** The cached list; `None` when nothing has been cached. */
    var data: Option<seq<Schedule>>
    /** A read of the key is in flight and its answer will be stored. */
    var fetching: bool
    /** The cancellations and invalidations issued on the key, oldest first. */
    var events: seq<CacheEvent>

    constructor (data: Option<seq<Schedule>>)
      ensures this.data == data && !fetching && events == []
    {
      this.data := data;
      fetching := false;
      events := [];
    }

    /** `getQueryData(["schedules"])` */
    method GetQueryData() returns (d: Option<seq<Schedule>>)
      ensures d == data
    {
      d := data;
    }

    /** `setQueryData(["schedules"], d)`: an undefined value leaves the entry as it is. */
    method SetQueryData(d: Option<seq<Schedule>>)
      modifies this`data
      ensures data == if d.Some? then d else old(data)
    {
      if d.Some? {
        data := d;
      }
    }

    /** `cancelQueries({ queryKey: ["schedules"] })`: the answer of an in-flight read will be dropped. */
    method CancelQueries()
      modifies this`fetching, this`events
      ensures !fetching && events == old(events) + [Cancelled]
    {
      fetching := false;
      events := events + [Cancelled];
    }

    /** `invalidateQueries({ queryKey: ["schedules"] })`: the entry is marked for refetching. */
    method InvalidateQueries()
      modifies this`events
      ensures events == old(events) + [Invalidated]
    {
      events := events + [Invalidated];
    }

    /** A read of the key starts (the query function is called). */
    method StartFetch()
      modifies this`fetching
      ensures fetching
    {
      fetching := true;
    }

    /** A read of the key answers; the answer is stored only if the read was not cancelled. */
    method FetchResolved(result: seq<Schedule>)
      modifies this`data, this`fetching
      ensures data == if old(fetching) then Some(result) else old(data)
      ensures !fetching
    {
      if fetching {
        data := Some(result);
      }
      fetching := false;
    }
  }

  /** The context `onMutate` hands to `onError`: the snapshot of the cached list. */
  datatype ToggleContext = ToggleContext(previous: Option<seq<Schedule>>)

  /**
   * `onMutate`: cancel in-flight reads, then snapshot the list, then rewrite the
   * target's flag in the cache, and return the snapshot.
   */
  method ToggleOnMutate(cache: SchedulesQuery, schedule: Schedule) returns (context: ToggleContext)
    modifies cache
    ensures context.previous == old(cache.data)
    ensures cache.data == ToggleUpdater(old(cache.data), schedule)
    ensures !cache.fetching
    ensures cache.events == old(cache.events) + [Cancelled]
  {
    cache.CancelQueries();
    var previous := cache.GetQueryData();
    cache.SetQueryData(ToggleUpdater(previous, schedule));
    context := ToggleContext(previous);
  }

  /** `onError`: put the snapshot back. */
  method ToggleOnError(cache: SchedulesQuery, context: ToggleContext)
    modifies cache
    ensures cache.data == if context.previous.Some? then context.previous else old(cache.data)
    ensures cache.fetching == old(cache.fetching) && cache.events == old(cache.events)
  {
    cache.SetQueryData(context.previous);
  }

  /** `onSettled`: invalidate the list, after a success and after a failure alike. */
  method ToggleOnSettled(cache: SchedulesQuery)
    modifies cache
    ensures cache.events == old(cache.events) + [Invalidated]
    ensures cache.data == old(cache.data) && cache.fetching == old(cache.fetching)
  {
    cache.InvalidateQueries();
  }

  /**
   * One run of the toggle mutation, with the reads that can answer while the update
   * request is pending:
   * - `lateRead`: the answer of a read that was already in flight when `onMutate` ran;
   *   that read was cancelled, so its answer is dropped;
   * - `newRead`: the answer of a read started after `onMutate` (a refetch of stale
   *   data, or one caused by another mutation's invalidation); it is stored.
   * `serverOk` is whether the update request succeeds.
   * Without a new read, a failure leaves the cache exactly as it was before the toggle
   * and a success leaves the rewritten list. A new read's answer replaces the
   * rewritten list, and a failure then puts back the snapshot only if there was one.
   * Either way the list is invalidated last.
   */
  method ToggleCompleted(cache: SchedulesQuery, schedule: Schedule, lateRead: Option<seq<Schedule>>,
                         newRead: Option<seq<Schedule>>, serverOk: bool)
    modifies cache
    ensures newRead.None? && !serverOk ==> cache.data == old(cache.data)
    ensures newRead.None? && serverOk ==> cache.data == ToggleUpdater(old(cache.data), schedule)
    ensures newRead.Some? && serverOk ==> cache.data == newRead
    ensures newRead.Some? && !serverOk ==>
              cache.data == if old(cache.data).Some? then old(cache.data) else newRead
    ensures !cache.fetching
    ensures cache.events == old(cache.events) + [Cancelled, Invalidated]
  {
    var context := ToggleOnMutate(cache, schedule);
    if lateRead.Some? {
      cache.FetchResolved(lateRead.value);
    }
    if newRead.Some? {
      cache.StartFetch();
      cache.FetchResolved(newRead.value);
    }
    if !serverOk {
      ToggleOnError(cache, context);
    }
    ToggleOnSettled(cache);
  }

  /**
   * Two toggles that overlap (a second click before the first request answers): A sets
   * `s1` done, then B sets `s2` done, and both requests fail. A's rollback puts back
   * its snapshot, which wipes B's pending rewrite; B's rollback then puts back its own
   * snapshot, which holds A's rejected flag.
   */
  method OverlappingTogglesFail(s1: Schedule, s2: Schedule)
    returns (afterA: Option<seq<Schedule>>, afterB: Option<seq<Schedule>>)
    requires s1.id != s2.id && !s1.completed && !s2.completed
    ensures afterA == Some([s1, s2])
    ensures afterB == Some([s1.(completed := true), s2])
  {
    var cache := new SchedulesQuery(Some([s1, s2]));
    var a := ToggleOnMutate(cache, s1.(completed := true));
    var shownA := cache.data.value;
    assert [s1, s2][0] == s1 && [s1, s2][1] == s2;
    assert |shownA| == 2 && shownA[0] == s1.(completed := true) && shownA[1] == s2;
    assert shownA == [s1.(completed := true), s2];
    var b := ToggleOnMutate(cache, s2.(completed := true));
    assert b.previous == Some([s1.(completed := true), s2]);
    ToggleOnError(cache, a);
    afterA := cache.data;
    ToggleOnError(cache, b);
    afterB := cache.data;
    ToggleOnSettled(cache);
    ToggleOnSettled(cache);
  }

  /** `useAddSchedule` once its request has answered: invalidate on success only. */
  method AddScheduleSettled(cache: SchedulesQuery, ok: bool)
    modifies cache
    ensures cache.events == old(cache.events) + (if ok then [Invalidated] else [])
    ensures cache.data == old(cache.data) && cache.fetching == old(cache.fetching)
  {
    if ok {
      cache.InvalidateQueries();
    }
  }

  /** `useRemoveSchedule` once its request has answered: invalidate on success only. */
  method RemoveScheduleSettled(cache: SchedulesQuery, ok: bool)
    modifies cache
    ensures cache.events == old(cache.events) + (if ok then [Invalidated] else [])
    ensures cache.data == old(cache.data) && cache.fetching == old(cache.fetching)
  {
    if ok {
      cache.InvalidateQueries();
    }
  }

  /**
   * Two cached schedules; toggling the first to done shows it done at once, and a
   * failed update brings back the list as it was.
   */
  method ToggleThenFail(s1: Schedule, s2: Schedule)
    requires s1.id != s2.id && !s1.completed && s2.completed
  {
    var cache := new SchedulesQuery(Some([s1, s2]));
    var target := s1.(completed := true);
    var context := ToggleOnMutate(cache, target);
    var shown := cache.data.value;
    assert [s1, s2][0] == s1 && [s1, s2][1] == s2;
    assert |shown| == 2 && shown[0] == s1.(completed := true) && shown[1] == s2;
    assert shown == [s1.(completed := true), s2];
    assert cache.data == Some([s1.(completed := true), s2]);
    ToggleOnError(cache, context);
    ToggleOnSettled(cache);
    assert cache.data == Some([s1, s2]);
    assert cache.events == [Cancelled, Invalidated];
  }
}
