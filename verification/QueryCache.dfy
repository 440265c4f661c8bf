/** The decoded-event cache of the timeline query. */
module QueryCaches {
  import opened Outcomes
  import opened ActivityEvents
  import Stores = ActivityStores

  const MAX_CACHE_ENTRIES: nat := 5000

  /** A row of the query's SELECT: the event identifier and the stored envelope bytes. */
  datatype TableRow = TableRow(id: string, stored: string)

  datatype CacheEntry = CacheEntry(stored: string, event: Event)

  type Cache = map<string, CacheEntry>

  /** `decode` turns stored bytes into an event, or fails on a corrupt envelope. */
  datatype ReaderConfig = ReaderConfig(decode: string -> Option<Event>, store: Stores.StoreConfig)

  type ReadResult = Result<seq<Event>, Stores.ActivityError>

  /** Decodes a row and validates it against the scope of the query, collector included. */
  function DecodeRow(cfg: ReaderConfig, scope: Scope, row: TableRow): Result<Event, Stores.ActivityError> {
    match cfg.decode(row.stored)
    case None => Failure(Stores.Corrupt)
    case Some(e) => if Stores.ValidateEvent(cfg.store, scope, e).Some? then Failure(Stores.Corrupt) else Success(e)
  }

  /** The query without a cache. */
  function ReadPlain(cfg: ReaderConfig, scope: Scope, rows: seq<TableRow>): ReadResult {
    if rows == [] then Success([])
    else
      match DecodeRow(cfg, scope, rows[0])
      case Failure(error) => Failure(error)
      case Success(e) =>
        match ReadPlain(cfg, scope, rows[1..])
        case Failure(error) => Failure(error)
        case Success(rest) => Success([e] + rest)
  }

  predicate Hit(cache: Cache, row: TableRow) {
    row.id in cache && cache[row.id].stored == row.stored
  }

  /** A freshly decoded event replaces its own entry, or is added while there is room. */
  function Remember(cache: Cache, row: TableRow, e: Event): Cache {
    if row.id in cache || |cache| < MAX_CACHE_ENTRIES then cache[row.id := CacheEntry(row.stored, e)] else cache
  }

  function ReadCached(cfg: ReaderConfig, scope: Scope, cache: Cache, rows: seq<TableRow>): (ReadResult, Cache)
    decreases |rows|
  {
    if rows == [] then (Success([]), cache)
    else if Hit(cache, rows[0]) then
      var (rest, after) := ReadCached(cfg, scope, cache, rows[1..]);
      (Prepend(cache[rows[0].id].event, rest), after)
    else
      match DecodeRow(cfg, scope, rows[0])
      case Failure(error) => (Failure(error), cache)
      case Success(e) =>
        var (rest, after) := ReadCached(cfg, scope, Remember(cache, rows[0], e), rows[1..]);
        (Prepend(e, rest), after)
  }

  function Prepend(e: Event, rest: ReadResult): ReadResult {
    match rest
    case Failure(error) => Failure(error)
    case Success(events) => Success([e] + events)
  }

  /** Every entry's event is the decoding of its stored bytes, and the cache is bounded. */
  ghost predicate CacheInv(cfg: ReaderConfig, cache: Cache) {
    && |cache| <= MAX_CACHE_ENTRIES
    && forall id | id in cache :: cfg.decode(cache[id].stored) == Some(cache[id].event)
  }

  lemma RememberKeepsInv(cfg: ReaderConfig, cache: Cache, row: TableRow, e: Event)
    requires CacheInv(cfg, cache)
    requires cfg.decode(row.stored) == Some(e)
    ensures CacheInv(cfg, Remember(cache, row, e))
  {
    var after := cache[row.id := CacheEntry(row.stored, e)];
    assert after.Keys == cache.Keys + {row.id};
  }

  /**
   * The cache invariant survives every query, successful or not, over any rows; and whenever the
   * cache-free query succeeds the cached one returns the same events.
   */
  lemma {:induction false} CachedReadAgrees(cfg: ReaderConfig, scope: Scope, cache: Cache, rows: seq<TableRow>)
    requires CacheInv(cfg, cache)
    ensures CacheInv(cfg, ReadCached(cfg, scope, cache, rows).1)
    ensures ReadPlain(cfg, scope, rows).Success? ==> ReadCached(cfg, scope, cache, rows).0 == ReadPlain(cfg, scope, rows)
    decreases |rows|
  {
    if rows != [] {
      if Hit(cache, rows[0]) {
        CachedReadAgrees(cfg, scope, cache, rows[1..]);
      } else if DecodeRow(cfg, scope, rows[0]).Success? {
        var e := DecodeRow(cfg, scope, rows[0]).value;
        RememberKeepsInv(cfg, cache, rows[0], e);
        CachedReadAgrees(cfg, scope, Remember(cache, rows[0], e), rows[1..]);
      }
    }
  }

  /** A query of a run: its scope and the rows the table held at the time. */
  datatype QueryCall = QueryCall(scope: Scope, rows: seq<TableRow>)

  function CacheAfter(cfg: ReaderConfig, cache: Cache, calls: seq<QueryCall>): Cache
    decreases |calls|
  {
    if calls == [] then cache
    else CacheAfter(cfg, ReadCached(cfg, calls[0].scope, cache, calls[0].rows).1, calls[1..])
  }

  /** Agreement after any history of queries, by any scopes, over any successive table contents. */
  lemma {:induction false} CachedReadAgreesAfterAnyHistory(
    cfg: ReaderConfig, cache: Cache, calls: seq<QueryCall>, scope: Scope, rows: seq<TableRow>)
    requires CacheInv(cfg, cache)
    ensures CacheInv(cfg, CacheAfter(cfg, cache, calls))
    ensures ReadPlain(cfg, scope, rows).Success? ==>
      ReadCached(cfg, scope, CacheAfter(cfg, cache, calls), rows).0 == ReadPlain(cfg, scope, rows)
    decreases |calls|
  {
    if calls == [] {
      CachedReadAgrees(cfg, scope, cache, rows);
    } else {
      CachedReadAgrees(cfg, calls[0].scope, cache, calls[0].rows);
      CachedReadAgreesAfterAnyHistory(cfg, ReadCached(cfg, calls[0].scope, cache, calls[0].rows).1, calls[1..], scope, rows);
    }
  }

  ghost predicate DistinctRowIds(rows: seq<TableRow>) {
    forall i, j | 0 <= i < j < |rows| :: rows[i].id != rows[j].id
  }

  /** Exactly when the cached query succeeds: every row is cached with its current bytes, or decodes in scope. */
  lemma {:induction false} CachedReadSucceedsIff(cfg: ReaderConfig, scope: Scope, cache: Cache, rows: seq<TableRow>)
    requires DistinctRowIds(rows)
    ensures ReadCached(cfg, scope, cache, rows).0.Success? <==>
      forall row | row in rows :: Hit(cache, row) || DecodeRow(cfg, scope, row).Success?
    decreases |rows|
  {
    hide DecodeRow;
    if rows != [] {
      var rest := rows[1..];
      assert rows == [rows[0]] + rest;
      if Hit(cache, rows[0]) {
        CachedReadSucceedsIff(cfg, scope, cache, rest);
      } else if DecodeRow(cfg, scope, rows[0]).Success? {
        var after := Remember(cache, rows[0], DecodeRow(cfg, scope, rows[0]).value);
        CachedReadSucceedsIff(cfg, scope, after, rest);
        forall row | row in rest ensures Hit(after, row) <==> Hit(cache, row) {
          var i :| 0 <= i < |rest| && rest[i] == row;
          assert row == rows[i + 1];
        }
      }
    }
  }

  /** Without the cache a query answers only if every row of the agent belongs to the queried collector. */
  lemma {:induction false} PlainReadIsOwnScope(cfg: ReaderConfig, scope: Scope, rows: seq<TableRow>)
    requires ReadPlain(cfg, scope, rows).Success?
    ensures forall e | e in ReadPlain(cfg, scope, rows).value :: e.body.scope == scope
  {
    if rows != [] {
      PlainReadIsOwnScope(cfg, scope, rows[1..]);
    }
  }

  lemma {:induction false} PlainReadSucceedsIff(cfg: ReaderConfig, scope: Scope, rows: seq<TableRow>)
    ensures ReadPlain(cfg, scope, rows).Success? <==> forall row | row in rows :: DecodeRow(cfg, scope, row).Success?
  {
    if rows != [] {
      PlainReadSucceedsIff(cfg, scope, rows[1..]);
      assert rows == [rows[0]] + rows[1..];
    }
  }

  /**
   * What a cache-free query returns, row by row: it answers if and only if each row's bytes decode to an
   * event that is admissible under the queried scope, and then with those events in row order; its only
   * error is Corrupt.
   */
  lemma {:induction false} PlainReadReturnsDecodings(cfg: ReaderConfig, scope: Scope, rows: seq<TableRow>)
    ensures ReadPlain(cfg, scope, rows).Success? <==>
      forall i | 0 <= i < |rows| ::
        cfg.decode(rows[i].stored).Some? && Stores.Admissible(cfg.store, scope, cfg.decode(rows[i].stored).value)
    ensures ReadPlain(cfg, scope, rows).Success? ==>
      var events := ReadPlain(cfg, scope, rows).value;
      |events| == |rows| && forall i | 0 <= i < |rows| :: cfg.decode(rows[i].stored) == Some(events[i])
    ensures ReadPlain(cfg, scope, rows).Failure? ==> ReadPlain(cfg, scope, rows).error == Stores.Corrupt
  {
    if rows != [] {
      var rest := rows[1..];
      PlainReadReturnsDecodings(cfg, scope, rest);
      if cfg.decode(rows[0].stored).Some? {
        Stores.EventIsRefusedIff(cfg.store, scope, cfg.decode(rows[0].stored).value);
      }
      hide Stores.Admissible, Stores.ValidateEvent;
      assert forall i | 0 <= i < |rest| :: rest[i] == rows[i + 1];
      assert forall i | 1 <= i < |rows| :: rows[i] == rest[i - 1];
    }
  }

  /**
   * What a query leaves in the cache for a row it had to decode: the row, if it replaces its own entry or
   * there is room, and otherwise nothing new; other entries stay.
   */
  lemma DecodedRowIsCachedIff(cfg: ReaderConfig, scope: Scope, cache: Cache, row: TableRow)
    requires !Hit(cache, row) && DecodeRow(cfg, scope, row).Success?
    ensures var after := ReadCached(cfg, scope, cache, [row]).1;
      && (Hit(after, row) <==> row.id in cache || |cache| < 5000)
      && (forall id | id in cache && id != row.id :: id in after && after[id] == cache[id])
      && (forall id | id in after && id != row.id :: id in cache)
  {
    assert [row][1..] == [];
    var e := DecodeRow(cfg, scope, row).value;
    assert ReadCached(cfg, scope, Remember(cache, row, e), []).1 == Remember(cache, row, e);
  }

  /**
   * The converse of agreement fails, and only in one way: the cache answers where a cache-free read
   * would fail exactly when each row is cached or in scope and some cached row is not in scope.
   */
  lemma CacheMasksFailureIff(cfg: ReaderConfig, scope: Scope, cache: Cache, rows: seq<TableRow>)
    requires DistinctRowIds(rows)
    ensures ReadCached(cfg, scope, cache, rows).0.Success? && ReadPlain(cfg, scope, rows).Failure? <==>
      && (forall row | row in rows :: Hit(cache, row) || DecodeRow(cfg, scope, row).Success?)
      && (exists row | row in rows :: Hit(cache, row) && DecodeRow(cfg, scope, row).Failure?)
  {
    CachedReadSucceedsIff(cfg, scope, cache, rows);
    PlainReadSucceedsIff(cfg, scope, rows);
  }

  /**
   * Two collectors of one agent: a query for the first fails on the other's row; after the second
   * has queried (and failed too) the identical query for the first succeeds and returns both.
   */
  lemma FailedQueryUnlocksAnother(cfg: ReaderConfig, first: Scope, second: Scope, a: TableRow, b: TableRow, ea: Event, eb: Event)
    requires a.id != b.id && first != second
    requires cfg.decode(a.stored) == Some(ea) && Stores.ValidateEvent(cfg.store, first, ea).None?
    requires cfg.decode(b.stored) == Some(eb) && Stores.ValidateEvent(cfg.store, second, eb).None?
    ensures ReadCached(cfg, first, map[], [b, a]).0.Failure?
    ensures var (failed, cache) := ReadCached(cfg, second, map[], [b, a]);
      failed.Failure? && ReadCached(cfg, first, cache, [b, a]).0 == Success([eb, ea])
  {
    var rows := [b, a];
    assert rows[1..] == [a] && [a][1..] == [];
    var empty: Cache := map[];
    assert |empty| == 0;
    var cache := Remember(empty, b, eb);
    assert Hit(cache, b) && !Hit(cache, a);
    assert ReadCached(cfg, second, cache, [a]) == (Failure(Stores.Corrupt), cache);
    assert ReadCached(cfg, second, empty, rows) == (Failure(Stores.Corrupt), cache);
    var after := Remember(cache, a, ea);
    assert ReadCached(cfg, first, after, []).0 == Success([]);
    assert [ea] + [] == [ea];
    assert DecodeRow(cfg, first, a) == Success(ea);
    assert ReadCached(cfg, first, cache, [a]).0 == Prepend(ea, ReadCached(cfg, first, after, [a][1..]).0);
    assert [eb] + [ea] == [eb, ea];
  }

  class TimelineReader {
    const cfg: ReaderConfig
    var cache: Cache

    constructor (cfg: ReaderConfig)
      ensures this.cfg == cfg && cache == map[] && CacheInv(cfg, cache)
    {
      this.cfg, cache := cfg, map[];
    }

    /** Reads the rows in order; on a failure the entries cached so far remain. */
    method Read(scope: Scope, rows: seq<TableRow>) returns (r: ReadResult)
      requires CacheInv(cfg, cache)
      modifies this
      ensures CacheInv(cfg, cache)
      ensures (r, cache) == ReadCached(cfg, scope, old(cache), rows)
      ensures ReadPlain(cfg, scope, rows).Success? ==> r == ReadPlain(cfg, scope, rows)
    {
      CachedReadAgrees(cfg, scope, cache, rows);
      hide CacheInv, DecodeRow, Remember, ReadPlain, Hit, Prepend, PrependAll;
      var all, i := [], 0;
      assert rows[0..] == rows;
      PrependNone(ReadCached(cfg, scope, cache, rows).0);
      while i < |rows|
        invariant 0 <= i <= |rows|
        invariant ReadCached(cfg, scope, old(cache), rows) ==
          var (rest, after) := ReadCached(cfg, scope, cache, rows[i..]); (PrependAll(all, rest), after)
      {
        var row := rows[i];
        assert rows[i..][0] == row && rows[i..][1..] == rows[i + 1..];
        var event;
        if Hit(cache, row) {
          event := cache[row.id].event;
        } else {
          var decoded := DecodeRow(cfg, scope, row);
          if decoded.Failure? {
            return Failure(decoded.error);
          }
          event := decoded.value;
          cache := Remember(cache, row, event);
        }
        PrependOne(all, event, ReadCached(cfg, scope, cache, rows[i + 1..]).0);
        all := all + [event];
        i := i + 1;
      }
      assert rows[i..] == [] && all + [] == all;
      r := Success(all);
    }
  }

  lemma PrependNone(rest: ReadResult)
    ensures PrependAll([], rest) == rest
  {
    if rest.Success? {
      assert [] + rest.value == rest.value;
    }
  }

  lemma PrependOne(events: seq<Event>, e: Event, rest: ReadResult)
    ensures PrependAll(events, Prepend(e, rest)) == PrependAll(events + [e], rest)
  {
    if rest.Success? {
      assert events + ([e] + rest.value) == (events + [e]) + rest.value;
    }
  }

  function PrependAll(events: seq<Event>, rest: ReadResult): ReadResult {
    match rest
    case Failure(error) => Failure(error)
    case Success(tail) => Success(events + tail)
  }
}
