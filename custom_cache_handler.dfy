/**
 * Custom cache handling for calendar events, whose custom ids cannot be
 * range-compared in the offline database: the first range request for a
 * list fetches the whole list from the server page by page and records the
 * sentinel range `[CUSTOM_MIN_ID, CUSTOM_MAX_ID]`; every range request then
 * filters, sorts and slices the whole cached list in memory.
 */
module CustomCache {
  import opened Wrappers
  import opened Seqs
  import opened EntityIds

  /** `CUSTOM_MIN_ID`: the empty custom id, below the id of every stored entity. */
  const CUSTOM_MIN_ID: Id := 0

  /** `CUSTOM_MAX_ID`: the id that closes the sentinel range. */
  const CUSTOM_MAX_ID: Id := MAX_SAFE_INTEGER as nat

  /** `LOAD_MULTIPLE_LIMIT`: the page size of a range request to the server. */
  const LOAD_MULTIPLE_LIMIT: nat := 100

  /** A calendar event as far as the cache is concerned: its id and its content. */
  datatype CalendarEvent = CalendarEvent(id: IdTuple, summary: string)

  /** The range of a list that the cache holds completely. */
  datatype Range = Range(lower: Id, upper: Id)

  /** The only range a calendar event list may have in the cache. */
  const SENTINEL_RANGE := Range(CUSTOM_MIN_ID, CUSTOM_MAX_ID)

  datatype CacheError = ProgrammingError

  /** The sort key of a reversed range: the element id, largest first. */
  function EventId(e: CalendarEvent): int
  {
    e.id.elementId
  }

  /** The sort key of a forward range: the negated element id, so that the smallest id comes first. */
  function NegatedId(e: CalendarEvent): int
  {
    -(e.id.elementId as int)
  }

  /** `firstBiggerThanSecond(getElementId(e), start)`. */
  function Above(start: Id): CalendarEvent -> bool
  {
    (e: CalendarEvent) => FirstBiggerThanSecond(e.id.elementId, start)
  }

  /** `firstBiggerThanSecond(start, getElementId(e))`. */
  function Below(start: Id): CalendarEvent -> bool
  {
    (e: CalendarEvent) => FirstBiggerThanSecond(start, e.id.elementId)
  }

  /** The element ids strictly increase along the list. */
  predicate StrictlyAscendingIds(s: seq<CalendarEvent>)
  {
    forall i, j :: 0 <= i < j < |s| ==> s[i].id.elementId < s[j].id.elementId
  }

  /** The end index of `slice(0, count)` on an array of length `len`. */
  function SliceTo(len: nat, count: int): (n: nat)
    ensures n <= len
    ensures count >= 0 ==> n == if count < len then count else len
    ensures count < 0 ==> n == if len + count < 0 then 0 else len + count
  {
    if count >= 0 then (if count < len then count else len)
    else if len + count < 0 then 0
    else len + count
  }

  /** The events after `start` sorted ascending, or before `start` sorted descending. */
  function InDirection(events: seq<CalendarEvent>, start: Id, reverse: bool): seq<CalendarEvent>
  {
    if reverse then SortDesc(Filter(events, Below(start)), EventId)
    else SortDesc(Filter(events, Above(start)), NegatedId)
  }

  /** The filter, sort and slice that end `loadRange`. */
  function RangeResult(events: seq<CalendarEvent>, start: Id, count: int, reverse: bool): (r: seq<CalendarEvent>)
    ensures |r| <= |events|
    ensures count >= 0 ==> |r| <= count
  {
    var sorted := InDirection(events, start, reverse);
    sorted[..SliceTo(|sorted|, count)]
  }

  /** Which events a range request is about: those after `start`, or before it when reversed. */
  function Side(start: Id, reverse: bool): CalendarEvent -> bool
  {
    if reverse then Below(start) else Above(start)
  }

  /** The sort key of a range request: descending ids when reversed, ascending otherwise. */
  function Key(reverse: bool): CalendarEvent -> int
  {
    if reverse then EventId else NegatedId
  }

  /** The events on the requested side of `start`, in the requested order. */
  lemma InDirectionSorted(events: seq<CalendarEvent>, start: Id, reverse: bool)
    ensures InDirection(events, start, reverse) == SortDesc(Filter(events, Side(start, reverse)), Key(reverse))
  {
  }

  /** Every event of a range is one of the list's events on the requested side of `start`. */
  lemma RangeResultSide(events: seq<CalendarEvent>, start: Id, count: int, reverse: bool)
    ensures forall x :: x in RangeResult(events, start, count, reverse) ==>
      x in events && (if reverse then x.id.elementId < start else x.id.elementId > start)
  {
    InDirectionSorted(events, start, reverse);
    var sorted := InDirection(events, start, reverse);
    var filtered := Filter(events, Side(start, reverse));
    assert multiset(sorted) == multiset(filtered);
    forall x | x in RangeResult(events, start, count, reverse)
      ensures x in events && Side(start, reverse)(x)
    {
      assert x in multiset(sorted);
    }
  }

  /** A range is in ascending id order, or descending when reversed. */
  lemma RangeResultOrdered(events: seq<CalendarEvent>, start: Id, count: int, reverse: bool)
    ensures var r := RangeResult(events, start, count, reverse);
      forall i, j :: 0 <= i < j < |r| ==> if reverse then r[i].id.elementId >= r[j].id.elementId else r[i].id.elementId <= r[j].id.elementId
  {
    InDirectionSorted(events, start, reverse);
    var sorted := InDirection(events, start, reverse);
    var r := RangeResult(events, start, count, reverse);
    forall i, j | 0 <= i < j < |r|
      ensures Key(reverse)(r[i]) >= Key(reverse)(r[j])
    {
      assert r[i] == sorted[i] && r[j] == sorted[j];
    }
  }

  /** What a sorted sequence's prefix leaves out sorts after everything the prefix holds. */
  lemma PrefixNearest<T>(sorted: seq<T>, key: T -> int, n: nat)
    requires SortedDesc(sorted, key) && n <= |sorted|
    ensures forall x, y :: x in sorted && x !in sorted[..n] && y in sorted[..n] ==> key(y) >= key(x)
  {
    forall x, y | x in sorted && x !in sorted[..n] && y in sorted[..n]
      ensures key(y) >= key(x)
    {
      var i :| 0 <= i < n && sorted[..n][i] == y;
      var j :| 0 <= j < |sorted| && sorted[j] == x;
      assert sorted[i] == y;
    }
  }

  /**
   * A range is the beginning of the requested side: every event of that
   * side left out is at least as far from `start` as every event returned.
   */
  lemma RangeResultNearest(events: seq<CalendarEvent>, start: Id, count: int, reverse: bool)
    ensures var r := RangeResult(events, start, count, reverse);
      forall x, y :: x in InDirection(events, start, reverse) && x !in r && y in r ==>
        if reverse then x.id.elementId <= y.id.elementId else x.id.elementId >= y.id.elementId
  {
    var sorted := InDirection(events, start, reverse);
    var n := SliceTo(|sorted|, count);
    if reverse {
      PrefixNearest(sorted, EventId, n);
    } else {
      PrefixNearest(sorted, NegatedId, n);
    }
  }

  /** A range shorter than a non-negative `count` holds every event on the requested side of `start`. */
  lemma RangeResultComplete(events: seq<CalendarEvent>, start: Id, count: int, reverse: bool, x: CalendarEvent)
    requires count >= 0 && |RangeResult(events, start, count, reverse)| < count
    requires x in events && (if reverse then x.id.elementId < start else x.id.elementId > start)
    ensures x in RangeResult(events, start, count, reverse)
  {
    InDirectionSorted(events, start, reverse);
    var sorted := InDirection(events, start, reverse);
    var filtered := Filter(events, Side(start, reverse));
    assert Side(start, reverse)(x);
    assert x in filtered;
    assert multiset(sorted) == multiset(filtered);
    assert x in multiset(sorted);
    assert sorted[..|sorted|] == sorted;
  }

  /** Past its first `n` events, a strictly ascending list holds exactly the events above the `n`-th one. */
  lemma {:induction false} AboveLastOfPrefix(t: seq<CalendarEvent>, n: nat)
    requires 0 < n <= |t| && StrictlyAscendingIds(t)
    ensures Filter(t, Above(t[n - 1].id.elementId)) == t[n..]
  {
    var last := t[n - 1].id.elementId;
    if n == 1 {
      forall x | x in t[1..]
        ensures Above(last)(x)
      {
        var j :| 0 <= j < |t[1..]| && t[1..][j] == x;
        assert t[j + 1] == x;
      }
      FilterAll(t[1..], Above(last));
    } else {
      assert t[1..][n - 2] == t[n - 1];
      assert StrictlyAscendingIds(t[1..]) by {
        forall i, j | 0 <= i < j < |t[1..]|
          ensures t[1..][i].id.elementId < t[1..][j].id.elementId
        {
          assert t[1..][i] == t[i + 1] && t[1..][j] == t[j + 1];
        }
      }
      AboveLastOfPrefix(t[1..], n - 1);
      assert t[1..][n - 1..] == t[n..];
    }
  }

  /**
   * After a full page of `n` events above `start`, the events above the
   * last one of the page are exactly the events above `start` that follow
   * the page.
   */
  lemma NextPageStart(list: seq<CalendarEvent>, start: Id, n: nat)
    requires StrictlyAscendingIds(list)
    requires 0 < n <= |Filter(list, Above(start))|
    ensures var above := Filter(list, Above(start));
      && above[n - 1].id.elementId > start
      && Filter(list, Above(above[n - 1].id.elementId)) == above[n..]
  {
    var above := Filter(list, Above(start));
    var next := above[n - 1].id.elementId;
    assert Above(start)(above[n - 1]);
    FilterStrictlyAscending(list, Above(start));
    forall x | x in list
      ensures Above(next)(x) <==> Above(start)(x) && Above(next)(x)
    {
    }
    FilterFilter(list, Above(start), Above(next), Above(next));
    AboveLastOfPrefix(above, n);
  }

  /** The first `count` events of the list above `start`. */
  function Page(list: seq<CalendarEvent>, start: Id, count: nat): (r: seq<CalendarEvent>)
    ensures |r| <= count
  {
    var above := Filter(list, Above(start));
    above[..if count < |above| then count else |above|]
  }

  /**
   * One page of the fetch loop, with `fetched` the events of the pages
   * before it: a short page completes the list; after a full one, what
   * remains are the events above its last event, fewer than before.
   */
  lemma FetchStep(list: seq<CalendarEvent>, start: Id, n: nat, fetched: seq<CalendarEvent>)
    requires n > 0 && StrictlyAscendingIds(list)
    requires fetched + Filter(list, Above(start)) == list
    ensures var page := Page(list, start, n);
      && (|page| < n ==> fetched + page == list)
      && (|page| == n ==> (fetched + page) + Filter(list, Above(page[n - 1].id.elementId)) == list
                          && |Filter(list, Above(page[n - 1].id.elementId))| < |Filter(list, Above(start))|)
  {
    var above := Filter(list, Above(start));
    var page := Page(list, start, n);
    if |page| == n {
      NextPageStart(list, start, n);
      assert page == above[..n];
      assert above == above[..n] + above[n..];
      assert (fetched + page) + above[n..] == fetched + above;
    }
  }

  /** The events of a list whose ids are all above `CUSTOM_MIN_ID`. */
  lemma AllAboveMin(list: seq<CalendarEvent>)
    requires forall e :: e in list ==> e.id.elementId > CUSTOM_MIN_ID
    ensures Filter(list, Above(CUSTOM_MIN_ID)) == list
  {
    forall e | e in list
      ensures Above(CUSTOM_MIN_ID)(e)
    {
    }
    FilterAll(list, Above(CUSTOM_MIN_ID));
  }

  /** Filtering keeps the ids strictly ascending. */
  lemma {:induction false} FilterStrictlyAscending(s: seq<CalendarEvent>, p: CalendarEvent -> bool)
    requires StrictlyAscendingIds(s)
    ensures StrictlyAscendingIds(Filter(s, p))
  {
    if s != [] {
      assert StrictlyAscendingIds(s[1..]) by {
        forall i, j | 0 <= i < j < |s[1..]|
          ensures s[1..][i].id.elementId < s[1..][j].id.elementId
        {
          assert s[1..][i] == s[i + 1] && s[1..][j] == s[j + 1];
        }
      }
      FilterStrictlyAscending(s[1..], p);
      var rest := Filter(s[1..], p);
      forall x | x in rest
        ensures s[0].id.elementId < x.id.elementId
      {
        var j :| 0 <= j < |s[1..]| && s[1..][j] == x;
        assert s[j + 1] == x;
      }
    }
  }

  /** No two cached events share an id, as in a store keyed by id. */
  predicate UniqueIds(list: seq<CalendarEvent>)
  {
    forall i, j :: 0 <= i < j < |list| ==> list[i].id != list[j].id
  }

  /**
   * `put` into a cached list: an event replaces the cached event with the
   * same id, or is added at the end.
   */
  function Upsert(list: seq<CalendarEvent>, e: CalendarEvent): (r: seq<CalendarEvent>)
    ensures e in r
    ensures forall x :: x in list && x.id != e.id ==> x in r
    ensures forall x :: x in r ==> x == e || x in list
  {
    if list == [] then [e]
    else if list[0].id == e.id then [e] + list[1..]
    else [list[0]] + Upsert(list[1..], e)
  }

  /** Ids are unique after a first event exactly when they are unique in the rest and differ from the first. */
  lemma UniqueIdsCons(x: CalendarEvent, s: seq<CalendarEvent>)
    ensures UniqueIds([x] + s) <==> UniqueIds(s) && forall y :: y in s ==> y.id != x.id
  {
    var r := [x] + s;
    if UniqueIds(r) {
      forall y | y in s
        ensures y.id != x.id
      {
        var j :| 0 <= j < |s| && s[j] == y;
        assert r[0] == x && r[j + 1] == y;
      }
      forall i, j | 0 <= i < j < |s|
        ensures s[i].id != s[j].id
      {
        assert r[i + 1] == s[i] && r[j + 1] == s[j];
      }
    }
    if UniqueIds(s) && forall y :: y in s ==> y.id != x.id {
      forall i, j | 0 <= i < j < |r|
        ensures r[i].id != r[j].id
      {
        if i == 0 {
          assert r[j] == s[j - 1];
        } else {
          assert r[i] == s[i - 1] && r[j] == s[j - 1];
        }
      }
    }
  }

  /** In a list keyed by id, `put` overwrites: the only event left with the id is the new one. */
  lemma {:induction false} UpsertOverwrites(list: seq<CalendarEvent>, e: CalendarEvent)
    requires UniqueIds(list)
    ensures UniqueIds(Upsert(list, e))
    ensures forall x :: x in Upsert(list, e) && x.id == e.id ==> x == e
  {
    if list != [] {
      assert list == [list[0]] + list[1..];
      UniqueIdsCons(list[0], list[1..]);
      if list[0].id != e.id {
        UpsertOverwrites(list[1..], e);
        UniqueIdsCons(list[0], Upsert(list[1..], e));
      } else {
        UniqueIdsCons(e, list[1..]);
      }
    }
  }

  /** Putting the events one after the other. */
  function UpsertAll(list: seq<CalendarEvent>, events: seq<CalendarEvent>): seq<CalendarEvent>
    decreases |events|
  {
    if events == [] then list else UpsertAll(Upsert(list, events[0]), events[1..])
  }

  /** Putting one more event after the others. */
  lemma {:induction false} UpsertAllSnoc(list: seq<CalendarEvent>, events: seq<CalendarEvent>, e: CalendarEvent)
    ensures UpsertAll(list, events + [e]) == Upsert(UpsertAll(list, events), e)
    decreases |events|
  {
    if events == [] {
      assert [] + [e] == [e];
    } else {
      assert (events + [e])[1..] == events[1..] + [e];
      UpsertAllSnoc(Upsert(list, events[0]), events[1..], e);
    }
  }

  /** An event whose id is not cached yet is added at the end. */
  lemma {:induction false} UpsertNew(list: seq<CalendarEvent>, e: CalendarEvent)
    requires forall x :: x in list ==> x.id != e.id
    ensures Upsert(list, e) == list + [e]
  {
    if list != [] {
      UpsertNew(list[1..], e);
      assert [list[0]] + (list[1..] + [e]) == list + [e];
    }
  }

  /** Putting events with distinct new ids into an empty cached list caches exactly those events. */
  lemma {:induction false} UpsertAllFresh(events: seq<CalendarEvent>, prefix: seq<CalendarEvent>)
    requires StrictlyAscendingIds(prefix + events)
    ensures UpsertAll(prefix, events) == prefix + events
    decreases |events|
  {
    if events != [] {
      forall x | x in prefix
        ensures x.id != events[0].id
      {
        var i :| 0 <= i < |prefix| && prefix[i] == x;
        assert (prefix + events)[i] == x && (prefix + events)[|prefix|] == events[0];
      }
      UpsertNew(prefix, events[0]);
      assert prefix + events == (prefix + [events[0]]) + events[1..];
      UpsertAllFresh(events[1..], prefix + [events[0]]);
    }
  }

  /** The cached lists after putting the events of one list into it. */
  function PutAllInto(lists: map<Id, seq<CalendarEvent>>, listId: Id, events: seq<CalendarEvent>): map<Id, seq<CalendarEvent>>
  {
    if events == [] then lists
    else lists[listId := UpsertAll(if listId in lists then lists[listId] else [], events)]
  }

  /** Putting the next event of the list after those before it. */
  lemma PutAllIntoSnoc(lists: map<Id, seq<CalendarEvent>>, listId: Id, events: seq<CalendarEvent>, i: nat)
    requires i < |events|
    ensures var before := PutAllInto(lists, listId, events[..i]);
      PutAllInto(lists, listId, events[..i + 1])
        == before[listId := Upsert(if listId in before then before[listId] else [], events[i])]
  {
    var start := if listId in lists then lists[listId] else [];
    UpsertAllSnoc(start, events[..i], events[i]);
    assert events[..i + 1] == events[..i] + [events[i]];
    if i == 0 {
      assert events[..i] == [];
    }
  }

  /**
   * `CacheStorage`, for calendar events: the range recorded per list and
   * the events cached per list.
   */
  class CacheStorage {
    var ranges: map<Id, Range>
    var lists: map<Id, seq<CalendarEvent>>

    constructor ()
      ensures ranges == map[] && lists == map[]
    {
      ranges := map[];
      lists := map[];
    }

    /** `getWholeListParsed`: the cached events of the list. */
    function WholeList(listId: Id): seq<CalendarEvent>
      reads this
    {
      if listId in lists then lists[listId] else []
    }

    /** `put`. */
    method Put(e: CalendarEvent)
      modifies this
      ensures ranges == old(ranges)
      ensures lists == old(lists)[e.id.listId := Upsert(old(WholeList(e.id.listId)), e)]
    {
      lists := lists[e.id.listId := Upsert(WholeList(e.id.listId), e)];
    }

    /** `put` of every event of one list, in order. */
    method PutAll(listId: Id, events: seq<CalendarEvent>)
      requires forall e :: e in events ==> e.id.listId == listId
      modifies this
      ensures ranges == old(ranges)
      ensures lists == PutAllInto(old(lists), listId, events)
    {
      var i := 0;
      while i < |events|
        invariant 0 <= i <= |events|
        invariant ranges == old(ranges)
        invariant lists == PutAllInto(old(lists), listId, events[..i])
      {
        assert events[i] in events;
        PutAllIntoSnoc(old(lists), listId, events, i);
        Put(events[i]);
        i := i + 1;
      }
      assert events[..i] == events;
    }

    /** `setNewRangeForList`. */
    method SetNewRangeForList(listId: Id, lower: Id, upper: Id)
      modifies this
      ensures ranges == old(ranges)[listId := Range(lower, upper)] && lists == old(lists)
    {
      ranges := ranges[listId := Range(lower, upper)];
    }
  }

  /** `assertCorrectRange`: a calendar event list's range must be the sentinel range. */
  function AssertCorrectRange(range: Range): (r: Outcome<CacheError>)
    ensures r.Pass? <==> range.lower == CUSTOM_MIN_ID && range.upper == CUSTOM_MAX_ID
  {
    if range.lower != CUSTOM_MIN_ID || range.upper != CUSTOM_MAX_ID then Fail(ProgrammingError) else Pass
  }

  class CustomCalendarEventCacheHandler {
    /** What the server stores: the events of every calendar list, by list id. */
    const server: map<Id, seq<CalendarEvent>>

    constructor (server: map<Id, seq<CalendarEvent>>)
      ensures this.server == server
    {
      this.server := server;
    }

    function ServerList(listId: Id): seq<CalendarEvent>
    {
      if listId in server then server[listId] else []
    }

    /**
     * How the server keeps a list: ascending by element id, every event
     * under the list's id and with a non-empty custom id.
     */
    predicate ServerListValid(listId: Id)
    {
      && StrictlyAscendingIds(ServerList(listId))
      && forall e :: e in ServerList(listId) ==> e.id.listId == listId && e.id.elementId > CUSTOM_MIN_ID
    }

    /** `loadParsedInstancesRange(listId, start, count, false)`: the first `count` events above `start`. */
    function LoadPage(listId: Id, start: Id, count: nat): (r: seq<CalendarEvent>)
      ensures |r| <= count
    {
      Page(ServerList(listId), start, count)
    }

    /**
     * The fetch phase of `loadRange`: pages of `LOAD_MULTIPLE_LIMIT` events,
     * each starting after the last event of the one before, until a short
     * page; together they are the whole list.
     */
    method FetchWholeList(listId: Id) returns (rawList: seq<CalendarEvent>)
      requires ServerListValid(listId)
      ensures rawList == ServerList(listId)
    {
      var list := ServerList(listId);
      AllAboveMin(list);
      rawList := [];
      var currentMinId := CUSTOM_MIN_ID;
      while true
        invariant rawList + Filter(list, Above(currentMinId)) == list
        decreases |Filter(list, Above(currentMinId))|
      {
        var chunk := LoadPage(listId, currentMinId, LOAD_MULTIPLE_LIMIT);
        FetchStep(list, currentMinId, LOAD_MULTIPLE_LIMIT, rawList);
        rawList := rawList + chunk;
        if |chunk| < LOAD_MULTIPLE_LIMIT {
          return;
        }
        currentMinId := chunk[|chunk| - 1].id.elementId;
      }
    }

    /**
     * `loadRange`: without a range for the list the whole list is fetched,
     * cached and given the sentinel range, and the range is taken from it;
     * with the sentinel range it is taken from the cached list and the cache
     * is left alone; any other range is a programming error.
     */
    method LoadRange(storage: CacheStorage, listId: Id, start: Id, count: int, reverse: bool)
      returns (r: Result<seq<CalendarEvent>, CacheError>)
      requires ServerListValid(listId)
      modifies storage
      ensures listId !in old(storage.ranges) ==>
        && r == Ok(RangeResult(ServerList(listId), start, count, reverse))
        && storage.ranges == old(storage.ranges)[listId := SENTINEL_RANGE]
        && storage.lists == PutAllInto(old(storage.lists), listId, ServerList(listId))
      ensures listId in old(storage.ranges) && old(storage.ranges)[listId] == SENTINEL_RANGE ==>
        && r == Ok(RangeResult(old(storage.WholeList(listId)), start, count, reverse))
        && storage.ranges == old(storage.ranges) && storage.lists == old(storage.lists)
      ensures listId in old(storage.ranges) && old(storage.ranges)[listId] != SENTINEL_RANGE ==>
        && r == Err(ProgrammingError)
        && storage.ranges == old(storage.ranges) && storage.lists == old(storage.lists)
    {
      var rawList: seq<CalendarEvent>;
      if listId !in storage.ranges {
        rawList := FetchWholeList(listId);
        storage.PutAll(listId, rawList);
        storage.SetNewRangeForList(listId, CUSTOM_MIN_ID, CUSTOM_MAX_ID);
      } else {
        if AssertCorrectRange(storage.ranges[listId]).Fail? {
          return Err(ProgrammingError);
        }
        rawList := storage.WholeList(listId);
      }
      r := Ok(RangeResult(rawList, start, count, reverse));
    }

    /**
     * `getElementIdsInCacheRange`: without a range none of the ids counts as
     * cached; with the sentinel range all of them do.
     */
    function GetElementIdsInCacheRange(storage: CacheStorage, listId: Id, ids: seq<Id>): (r: Result<seq<Id>, CacheError>)
      reads storage
      ensures listId !in storage.ranges ==> r == Ok([])
      ensures listId in storage.ranges ==> (r.Ok? <==> storage.ranges[listId] == SENTINEL_RANGE)
      ensures listId in storage.ranges && r.Ok? ==> r.value == ids
    {
      if listId !in storage.ranges then Ok([])
      else if AssertCorrectRange(storage.ranges[listId]).Fail? then Err(ProgrammingError)
      else Ok(ids)
    }
  }

  /**
   * A first range request for a list that was not cached at all caches the
   * whole list and answers from it; after it, the cached list answers every
   * range request as the server list would, and every id counts as cached.
   */
  method LoadRangeTwice(handler: CustomCalendarEventCacheHandler, storage: CacheStorage, listId: Id,
                        start: Id, count: int, reverse: bool, start2: Id, count2: int, reverse2: bool, ids: seq<Id>)
    returns (first: Result<seq<CalendarEvent>, CacheError>, second: Result<seq<CalendarEvent>, CacheError>)
    requires handler.ServerListValid(listId)
    requires listId !in storage.ranges && listId !in storage.lists
    modifies storage
    ensures first == Ok(RangeResult(handler.ServerList(listId), start, count, reverse))
    ensures second == Ok(RangeResult(handler.ServerList(listId), start2, count2, reverse2))
    ensures handler.GetElementIdsInCacheRange(storage, listId, ids) == Ok(ids)
  {
    first := handler.LoadRange(storage, listId, start, count, reverse);
    assert [] + handler.ServerList(listId) == handler.ServerList(listId);
    UpsertAllFresh(handler.ServerList(listId), []);
    second := handler.LoadRange(storage, listId, start2, count2, reverse2);
  }

  /** The custom handlers there are. */
  datatype CustomCacheHandler = CalendarEventHandler(calendar: CustomCalendarEventCacheHandler) | MailEventHandler

  /**
   * `shouldLoadOnCreateEvent`: new mails are always loaded into the cache;
   * the calendar event handler does not decide it.
   */
  function ShouldLoadOnCreateEvent(handler: CustomCacheHandler): (r: Option<bool>)
    ensures r == Some(true) <==> handler.MailEventHandler?
    ensures r.None? <==> handler.CalendarEventHandler?
  {
    match handler
    case MailEventHandler => Some(true)
    case CalendarEventHandler(_) => None
  }

  /** One constructor argument of the handler map. */
  datatype Mapping = Mapping(ref: TypeRef, handler: CustomCacheHandler)

  /** The map that registering the mappings in order builds. */
  function Registered(args: seq<Mapping>): map<TypeRef, CustomCacheHandler>
  {
    if args == [] then map[]
    else Registered(args[..|args| - 1])[args[|args| - 1].ref := args[|args| - 1].handler]
  }

  /** The handler of the last mapping for the type, if any. */
  function LastHandlerFor(args: seq<Mapping>, typeRef: TypeRef): (r: Option<CustomCacheHandler>)
    ensures r.None? <==> forall i :: 0 <= i < |args| ==> args[i].ref != typeRef
    ensures r.Some? ==> exists i :: 0 <= i < |args| && args[i] == Mapping(typeRef, r.value)
                          && forall j :: i < j < |args| ==> args[j].ref != typeRef
    decreases |args|
  {
    if args == [] then None
    else if args[|args| - 1].ref == typeRef then Some(args[|args| - 1].handler)
    else
      var init := args[..|args| - 1];
      var r := LastHandlerFor(init, typeRef);
      assert forall i :: 0 <= i < |init| ==> init[i] == args[i];
      if r.Some? then
        ghost var i :| 0 <= i < |init| && init[i] == Mapping(typeRef, r.value) && forall j :: i < j < |init| ==> init[j].ref != typeRef;
        assert args[i] == Mapping(typeRef, r.value);
        r
      else r
  }

  /** Registering in order: a type maps to the handler of its last mapping. */
  lemma {:induction false} RegisteredLastWins(args: seq<Mapping>, typeRef: TypeRef)
    ensures typeRef in Registered(args) <==> LastHandlerFor(args, typeRef).Some?
    ensures typeRef in Registered(args) ==> Registered(args)[typeRef] == LastHandlerFor(args, typeRef).value
    decreases |args|
  {
    if args != [] {
      RegisteredLastWins(args[..|args| - 1], typeRef);
    }
  }

  /**
   * `CustomCacheHandlerMap`: the handlers by type, frozen once the
   * constructor has registered its arguments in order.
   */
  class CustomCacheHandlerMap {
    ghost const args: seq<Mapping>
    const handlers: map<TypeRef, CustomCacheHandler>

    constructor (args: seq<Mapping>)
      ensures this.args == args && handlers == Registered(args)
    {
      this.args := args;
      var m: map<TypeRef, CustomCacheHandler> := map[];
      var i := 0;
      while i < |args|
        invariant 0 <= i <= |args|
        invariant m == Registered(args[..i])
      {
        assert args[..i + 1][..i] == args[..i];
        m := m[args[i].ref := args[i].handler];
        i := i + 1;
      }
      assert args[..i] == args;
      handlers := m;
    }

    /** `get`: the handler of the last argument registered for the type, if any. */
    function Get(typeRef: TypeRef): (r: Option<CustomCacheHandler>)
      requires handlers == Registered(args)
      ensures r == LastHandlerFor(args, typeRef)
    {
      RegisteredLastWins(args, typeRef);
      if typeRef in handlers then Some(handlers[typeRef]) else None
    }
  }
}
