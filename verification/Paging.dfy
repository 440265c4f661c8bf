/** Filtering and cursor paging of the timeline. */
module TimelinePaging {
  import opened Outcomes
  import opened ActivityEvents

  const DEFAULT_LIMIT: nat := 200
  const MAX_LIMIT: nat := 5000

  datatype ActivityQuery = ActivityQuery(
    name: Option<string>,
    collector: Option<string>,
    trust: Option<string>,
    plane: Option<string>,
    outcome: Option<string>,
    correlation: map<CorrelationKey, string>,
    since: Option<int>,
    until: Option<int>)

  predicate Wanted<T(==)>(filter: Option<T>, value: T) {
    filter.Some? ==> filter.value == value
  }

  predicate Matches(q: ActivityQuery, e: Event) {
    && Wanted(q.name, e.body.name)
    && Wanted(q.collector, e.body.scope.collector)
    && Wanted(q.trust, e.body.trust)
    && Wanted(q.plane, e.body.plane)
    && (q.outcome.Some? ==> e.body.outcome == q.outcome)
    && (forall key | key in q.correlation ::
          key in e.body.correlation && e.body.correlation[key] == q.correlation[key])
    && (q.since.Some? ==> e.body.occurredAt >= q.since.value)
    && (q.until.Some? ==> e.body.occurredAt <= q.until.value)
  }

  const NO_FILTER := ActivityQuery(None, None, None, None, None, map[], None, None)

  /** A query without filters takes every event. */
  lemma NoFilterMatchesAll(e: Event)
    ensures Matches(NO_FILTER, e)
  {
  }

  /**
   * Each filter works by itself: setting one that was not set keeps, of the events matched so far, exactly
   * those whose own field has the value wanted (or whose time lies on the wanted side, both ends counted in).
   */
  lemma EachFilterNarrows(q: ActivityQuery, e: Event, text: string, key: CorrelationKey, t: int)
    requires Matches(q, e)
    ensures q.name.None? ==> (Matches(q.(name := Some(text)), e) <==> e.body.name == text)
    ensures q.collector.None? ==> (Matches(q.(collector := Some(text)), e) <==> e.body.scope.collector == text)
    ensures q.trust.None? ==> (Matches(q.(trust := Some(text)), e) <==> e.body.trust == text)
    ensures q.plane.None? ==> (Matches(q.(plane := Some(text)), e) <==> e.body.plane == text)
    ensures q.outcome.None? ==> (Matches(q.(outcome := Some(text)), e) <==> e.body.outcome == Some(text))
    ensures key !in q.correlation ==> (Matches(q.(correlation := q.correlation[key := text]), e) <==>
      key in e.body.correlation && e.body.correlation[key] == text)
    ensures q.since.None? ==> (Matches(q.(since := Some(t)), e) <==> t <= e.body.occurredAt)
    ensures q.until.None? ==> (Matches(q.(until := Some(t)), e) <==> e.body.occurredAt <= t)
  {
    if key !in q.correlation {
      var wider := q.correlation[key := text];
      assert key in wider;
      assert forall k | k in q.correlation :: k in wider && wider[k] == q.correlation[k];
    }
  }

  /** And an event some filter refuses stays refused, whatever filters are added. */
  lemma FiltersOnlyNarrow(q: ActivityQuery, e: Event, text: string, key: CorrelationKey, t: int)
    requires !Matches(q, e)
    ensures q.name.None? ==> !Matches(q.(name := Some(text)), e)
    ensures q.collector.None? ==> !Matches(q.(collector := Some(text)), e)
    ensures q.trust.None? ==> !Matches(q.(trust := Some(text)), e)
    ensures q.plane.None? ==> !Matches(q.(plane := Some(text)), e)
    ensures q.outcome.None? ==> !Matches(q.(outcome := Some(text)), e)
    ensures key !in q.correlation ==> !Matches(q.(correlation := q.correlation[key := text]), e)
    ensures q.since.None? ==> !Matches(q.(since := Some(t)), e)
    ensures q.until.None? ==> !Matches(q.(until := Some(t)), e)
  {
    if key !in q.correlation {
      var wider := q.correlation[key := text];
      assert forall k | k in q.correlation :: k in wider && wider[k] == q.correlation[k];
    }
  }

  /** The matching events, in timeline order. */
  function Select(all: seq<Event>, q: ActivityQuery): (r: seq<Event>)
    ensures forall e :: e in r <==> e in all && Matches(q, e)
  {
    if all == [] then []
    else if Matches(q, all[0]) then [all[0]] + Select(all[1..], q)
    else Select(all[1..], q)
  }

  /** Filtering a timeline in two parts keeps their order, so it only leaves events out. */
  lemma {:induction false} SelectConcat(a: seq<Event>, b: seq<Event>, q: ActivityQuery)
    ensures Select(a + b, q) == Select(a, q) + Select(b, q)
  {
    hide Matches;
    if a == [] {
      assert a + b == b;
    } else {
      SelectConcat(a[1..], b, q);
      assert (a + b)[0] == a[0] && (a + b)[1..] == a[1..] + b;
      var rest, tail := Select(a[1..], q), Select(b, q);
      assert [a[0]] + (rest + tail) == ([a[0]] + rest) + tail;
    }
  }

  datatype Page = Page(events: seq<Event>, nextCursor: Option<string>, hasMore: bool, cursorFound: bool)

  function EffectiveLimit(limit: Option<nat>): nat {
    var n := if limit.Some? then limit.value else DEFAULT_LIMIT;
    if n < MAX_LIMIT then n else MAX_LIMIT
  }

  function PositionOf(timeline: seq<Event>, id: string): (r: Option<nat>)
    ensures r.Some? ==> r.value < |timeline| && timeline[r.value].id == id
    ensures r.Some? ==> forall i | 0 <= i < r.value :: timeline[i].id != id
    ensures r.None? ==> forall i | 0 <= i < |timeline| :: timeline[i].id != id
  {
    if timeline == [] then None
    else if timeline[0].id == id then Some(0)
    else
      var rest := PositionOf(timeline[1..], id);
      assert forall i | 1 <= i < |timeline| :: timeline[i] == timeline[1..][i - 1];
      if rest.Some? then Some(rest.value + 1) else None
  }

  /** A page resumes after its cursor, or at the start when the cursor is absent or unknown. */
  function PageAfter(timeline: seq<Event>, cursor: Option<string>, limit: Option<nat>): Page {
    var position := if cursor.Some? then PositionOf(timeline, cursor.value) else None;
    var start := if position.Some? then position.value + 1 else 0;
    var n := EffectiveLimit(limit);
    var end := if start + n < |timeline| then start + n else |timeline|;
    var events := timeline[start..end];
    Page(events,
         if events == [] then None else Some(events[|events| - 1].id),
         |timeline| > start + n,
         cursor.None? || position.Some?)
  }

  ghost predicate DistinctIds(timeline: seq<Event>) {
    forall i, j | 0 <= i < j < |timeline| :: timeline[i].id != timeline[j].id
  }

  /** Filtering keeps identifiers distinct, so the cursor of a filtered timeline is unambiguous. */
  lemma {:induction false} SelectKeepsDistinct(all: seq<Event>, q: ActivityQuery)
    requires DistinctIds(all)
    ensures DistinctIds(Select(all, q))
  {
    if all != [] {
      var rest := Select(all[1..], q);
      SelectKeepsDistinct(all[1..], q);
      forall e | e in rest ensures e.id != all[0].id {
        var i :| 0 <= i < |all[1..]| && all[1..][i] == e;
        assert e == all[i + 1];
      }
    }
  }

  /** The cursor a reader holds once it has read the first `k` events. */
  function CursorAt(timeline: seq<Event>, k: nat): Option<string>
    requires k <= |timeline|
  {
    if k == 0 then None else Some(timeline[k - 1].id)
  }

  /** The page after the first `k` events is the next slice, and its cursor marks the end of that slice. */
  lemma PageContinues(timeline: seq<Event>, k: nat, limit: Option<nat>)
    requires DistinctIds(timeline)
    requires k <= |timeline|
    ensures var n := EffectiveLimit(limit);
      var end := if k + n < |timeline| then k + n else |timeline|;
      var page := PageAfter(timeline, CursorAt(timeline, k), limit);
      && page.events == timeline[k..end]
      && page.cursorFound
      && page.hasMore == (end < |timeline|)
      && (end > k ==> page.nextCursor == CursorAt(timeline, end))
  {
    if k > 0 {
      var position := PositionOf(timeline, timeline[k - 1].id);
      assert position.Some?;
      assert position.value == k - 1;
    }
  }

  /** Full pages of `n` events, then one last page. */
  function PagesNeeded(total: nat, n: nat): nat
    requires n >= 1
  {
    if total <= n then 1 else 1 + PagesNeeded(total - n, n)
  }

  /** How long a page is: 200 events by default, never more than 5000, and that many whenever more follow. */
  lemma PageLength(timeline: seq<Event>, cursor: Option<string>, limit: Option<nat>)
    ensures var page := PageAfter(timeline, cursor, limit);
      var wanted := if limit.None? then 200 else if limit.value < 5000 then limit.value else 5000;
      && |page.events| <= wanted
      && (page.hasMore ==> |page.events| == wanted)
  {
  }

  /** Following `next_cursor` until `has_more` is false, as a client does. */
  method ReadAllPages(timeline: seq<Event>, limit: Option<nat>) returns (read: seq<Event>, pages: nat)
    requires DistinctIds(timeline)
    requires EffectiveLimit(limit) >= 1
    ensures read == timeline
    ensures pages == PagesNeeded(|timeline|, EffectiveLimit(limit))
  {
    hide PageAfter, EffectiveLimit, DistinctIds;
    var n := EffectiveLimit(limit);
    PageContinues(timeline, 0, limit);
    var page := PageAfter(timeline, None, limit);
    read, pages := page.events, 1;
    while page.hasMore
      invariant |read| <= |timeline| && read == timeline[..|read|]
      invariant page.hasMore == (|read| < |timeline|)
      invariant page.hasMore ==> page.nextCursor == CursorAt(timeline, |read|)
      invariant PagesNeeded(|timeline|, n) == pages + if page.hasMore then PagesNeeded(|timeline| - |read|, n) else 0
      decreases |timeline| - |read|
    {
      PageContinues(timeline, |read|, limit);
      page := PageAfter(timeline, page.nextCursor, limit);
      read, pages := read + page.events, pages + 1;
    }
  }

  /** A page that announces more can be continued exactly when the limit is not zero. */
  lemma PageAdvancesIff(timeline: seq<Event>, cursor: Option<string>, limit: Option<nat>)
    requires PageAfter(timeline, cursor, limit).hasMore
    ensures PageAfter(timeline, cursor, limit).nextCursor.Some? <==> EffectiveLimit(limit) >= 1
  {
  }

  /** The same for the query as a client makes it: all pages of a filter are exactly the matching rows, in order. */
  method ReadTimeline(all: seq<Event>, q: ActivityQuery, limit: Option<nat>) returns (read: seq<Event>, pages: nat)
    requires DistinctIds(all)
    requires EffectiveLimit(limit) >= 1
    ensures read == Select(all, q) && (forall e :: e in read <==> e in all && Matches(q, e))
    ensures pages == PagesNeeded(|Select(all, q)|, EffectiveLimit(limit))
  {
    SelectKeepsDistinct(all, q);
    read, pages := ReadAllPages(Select(all, q), limit);
  }

  /** Any non-empty timeline, read with a limit of zero, announces more and gives no cursor to reach it. */
  lemma ZeroLimitNeverAdvances(timeline: seq<Event>)
    requires timeline != []
    ensures PageAfter(timeline, None, Some(0)) == Page([], None, true, true)
  {
  }

  /** An unknown cursor silently restarts the timeline; only the flag tells. */
  lemma UnknownCursorRestarts(timeline: seq<Event>, id: string, limit: Option<nat>)
    requires forall e | e in timeline :: e.id != id
    ensures PageAfter(timeline, Some(id), limit) == PageAfter(timeline, None, limit).(cursorFound := false)
  {
    assert PositionOf(timeline, id).None?;
  }
}
