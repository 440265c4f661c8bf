/** Per-collector coverage of a timeline read and the completeness verdict over it. */
module TimelineCoverage {
  import opened Outcomes
  import opened ActivityEvents
  import Stores = ActivityStores

  // ---------- gaps between observed sequences ----------

  ghost predicate Ascending(s: seq<nat>) {
    forall i, j | 0 <= i < j < |s| :: s[i] < s[j]
  }

  /** Insertion into an ordered set. */
  function InsertSorted(s: seq<nat>, x: nat): seq<nat> {
    if s == [] || x < s[0] then [x] + s
    else if x == s[0] then s
    else [s[0]] + InsertSorted(s[1..], x)
  }

  lemma ConsAscending(x: nat, s: seq<nat>)
    requires Ascending(s) && forall y | y in s :: x < y
    ensures Ascending([x] + s)
  {
    var all := [x] + s;
    forall i, j | 0 <= i < j < |all| ensures all[i] < all[j] {
      assert all[j] == s[j - 1] && s[j - 1] in s;
      assert i > 0 ==> all[i] == s[i - 1];
    }
  }

  lemma FirstIsLeast(s: seq<nat>, y: nat)
    requires Ascending(s) && y in s
    ensures s[0] <= y
  {
    var i :| 0 <= i < |s| && s[i] == y;
    assert i > 0 ==> s[0] < s[i];
  }

  lemma {:induction false} InsertSortedFacts(s: seq<nat>, x: nat)
    requires Ascending(s)
    ensures Ascending(InsertSorted(s, x))
    ensures forall y :: y in InsertSorted(s, x) <==> y in s || y == x
  {
    if s == [] || x < s[0] {
      forall y | y in s ensures x < y {
        FirstIsLeast(s, y);
      }
      ConsAscending(x, s);
    } else if x > s[0] {
      InsertSortedFacts(s[1..], x);
      assert s == [s[0]] + s[1..];
      ConsAscending(s[0], InsertSorted(s[1..], x));
    }
  }

  /** The distinct sequences of some events, in ascending order. */
  function SequencesOf(items: seq<Event>): seq<nat> {
    if items == [] then [] else InsertSorted(SequencesOf(items[1..]), items[0].sequence)
  }

  ghost predicate Observed(items: seq<Event>, n: nat) {
    exists e | e in items :: e.sequence == n
  }

  lemma {:induction false} SequencesFacts(items: seq<Event>)
    ensures Ascending(SequencesOf(items))
    ensures forall n: nat :: n in SequencesOf(items) <==> Observed(items, n)
  {
    if items != [] {
      SequencesFacts(items[1..]);
      InsertSortedFacts(SequencesOf(items[1..]), items[0].sequence);
      assert items == [items[0]] + items[1..];
    }
  }

  function Previous(s: seq<nat>, k: nat): nat
    requires k < |s|
  {
    if k == 0 then 0 else s[k - 1]
  }

  /** The gaps found once the first `k` sequences have been visited. */
  function GapsUpTo(collector: string, s: seq<nat>, k: nat): seq<Stores.SequenceGap>
    requires k <= |s|
  {
    if k == 0 then []
    else
      GapsUpTo(collector, s, k - 1) +
      if s[k - 1] > Previous(s, k - 1) + 1
      then [Stores.SequenceGap(collector, Previous(s, k - 1) + 1, s[k - 1] - 1)] else []
  }

  /** A maximal run of missing sequences: nothing in it is present, and both ends touch presence (or 1). */
  ghost predicate MaximalGap(s: seq<nat>, g: Stores.SequenceGap) {
    && 1 <= g.first <= g.last
    && (forall n | g.first <= n <= g.last :: n !in s)
    && (g.first == 1 || g.first - 1 in s)
    && g.last + 1 in s
  }

  ghost predicate InSomeGap(gaps: seq<Stores.SequenceGap>, n: nat) {
    exists g | g in gaps :: g.first <= n <= g.last
  }

  ghost predicate OrderedGaps(gaps: seq<Stores.SequenceGap>) {
    forall i, j | 0 <= i < j < |gaps| :: gaps[i].last < gaps[j].first
  }

  lemma BetweenNeighbours(s: seq<nat>, k: nat, n: nat)
    requires Ascending(s) && k < |s|
    requires Previous(s, k) < n < s[k]
    ensures n !in s
  {
    forall i | 0 <= i < |s| ensures s[i] != n {
      assert i < k - 1 ==> s[i] < s[k - 1];
    }
  }

  lemma NewGapIsMaximal(collector: string, s: seq<nat>, k: nat)
    requires Ascending(s) && k < |s|
    requires s[k] > Previous(s, k) + 1
    ensures MaximalGap(s, Stores.SequenceGap(collector, Previous(s, k) + 1, s[k] - 1))
  {
    forall n | Previous(s, k) + 1 <= n <= s[k] - 1 ensures n !in s {
      BetweenNeighbours(s, k, n);
    }
    assert k > 0 ==> s[k - 1] in s;
    assert s[k] in s;
  }

  lemma {:induction false} GapsAreMaximal(collector: string, s: seq<nat>, k: nat)
    requires Ascending(s) && k <= |s|
    ensures forall g | g in GapsUpTo(collector, s, k) :: MaximalGap(s, g) && g.collector == collector
  {
    hide MaximalGap;
    if k > 0 {
      GapsAreMaximal(collector, s, k - 1);
      if s[k - 1] > Previous(s, k - 1) + 1 {
        NewGapIsMaximal(collector, s, k - 1);
      }
    }
  }

  lemma AppendOrderedGap(before: seq<Stores.SequenceGap>, g: Stores.SequenceGap)
    requires OrderedGaps(before) && forall x | x in before :: x.last < g.first
    ensures OrderedGaps(before + [g])
  {
    assert forall i | 0 <= i < |before| :: before[i] in before;
  }

  lemma {:induction false} GapsAreOrdered(collector: string, s: seq<nat>, k: nat)
    requires Ascending(s) && k <= |s|
    ensures forall g | g in GapsUpTo(collector, s, k) :: g.last < s[k - 1]
    ensures OrderedGaps(GapsUpTo(collector, s, k))
  {
    assert OrderedGaps([]);
    if k > 0 {
      assert k > 1 ==> s[k - 2] < s[k - 1];
      GapsAreOrdered(collector, s, k - 1);
      hide OrderedGaps, Ascending;
      var before, previous := GapsUpTo(collector, s, k - 1), Previous(s, k - 1);
      assert forall x | x in before :: x.last < previous + 1;
      if s[k - 1] > previous + 1 {
        var g := Stores.SequenceGap(collector, previous + 1, s[k - 1] - 1);
        AppendOrderedGap(before, g);
        assert GapsUpTo(collector, s, k) == before + [g];
      } else {
        assert GapsUpTo(collector, s, k) == before + [] == before;
      }
    }
  }

  lemma {:induction false} MissingIsInSomeGap(collector: string, s: seq<nat>, k: nat, n: nat)
    requires Ascending(s) && 1 <= k <= |s|
    requires 1 <= n < s[k - 1] && n !in s
    ensures InSomeGap(GapsUpTo(collector, s, k), n)
  {
    var prev := Previous(s, k - 1);
    if n > prev {
      assert Stores.SequenceGap(collector, prev + 1, s[k - 1] - 1) in GapsUpTo(collector, s, k);
    } else {
      assert prev in s;
      MissingIsInSomeGap(collector, s, k - 1, n);
      var g :| g in GapsUpTo(collector, s, k - 1) && g.first <= n <= g.last;
      assert g in GapsUpTo(collector, s, k);
    }
  }

  /** One pass over the ordered sequences, remembering the previous one. */
  method FindGaps(collector: string, s: seq<nat>) returns (gaps: seq<Stores.SequenceGap>)
    requires Ascending(s)
    ensures gaps == GapsUpTo(collector, s, |s|)
    ensures OrderedGaps(gaps)
    ensures forall g | g in gaps :: MaximalGap(s, g)
    ensures s != [] ==> forall n | 1 <= n <= s[|s| - 1] && n !in s :: InSomeGap(gaps, n)
  {
    gaps := [];
    var previous := 0;
    for i := 0 to |s|
      invariant i > 0 ==> previous == s[i - 1]
      invariant i == 0 ==> previous == 0
      invariant gaps == GapsUpTo(collector, s, i)
    {
      if s[i] > previous + 1 {
        gaps := gaps + [Stores.SequenceGap(collector, previous + 1, s[i] - 1)];
      }
      previous := s[i];
    }
    GapsAreMaximal(collector, s, |s|);
    GapsAreOrdered(collector, s, |s|);
    if s != [] {
      forall n | 1 <= n <= s[|s| - 1] && n !in s ensures InSomeGap(gaps, n) {
        assert n != s[|s| - 1];
        MissingIsInSomeGap(collector, s, |s|, n);
      }
    }
  }

  // ---------- coverage and verdict ----------

  datatype CollectorCoverage = CollectorCoverage(
    collector: string,
    first: Option<nat>,
    last: Option<nat>,
    eventCount: nat,
    gaps: seq<Stores.SequenceGap>,
    losses: seq<Stores.SequenceGap>,
    restarts: nat,
    dropped: nat,
    unsupported: set<string>,
    stale: bool)

  function Items(all: seq<Event>, collector: string): (r: seq<Event>)
    ensures forall e :: e in r <==> e in all && e.body.scope.collector == collector
  {
    if all == [] then []
    else if all[0].body.scope.collector == collector then [all[0]] + Items(all[1..], collector)
    else Items(all[1..], collector)
  }

  /** The loss records of one scope, in the order they were recorded. */
  function LossesOf(losses: seq<Stores.LossRecord>, scope: Scope): seq<Stores.SequenceGap> {
    if losses == [] then []
    else if losses[0].scope == scope
    then [Stores.SequenceGap(scope.collector, losses[0].first, losses[0].last)] + LossesOf(losses[1..], scope)
    else LossesOf(losses[1..], scope)
  }

  lemma {:induction false} NoLossesIff(losses: seq<Stores.LossRecord>, scope: Scope)
    ensures LossesOf(losses, scope) == [] <==> forall r | r in losses :: r.scope != scope
  {
    if losses != [] {
      assert losses == [losses[0]] + losses[1..];
      NoLossesIff(losses[1..], scope);
    }
  }

  /** What is listed: the ranges recorded for the scope, under the collector's name, and no others. */
  lemma {:induction false} LossesAre(losses: seq<Stores.LossRecord>, scope: Scope, g: Stores.SequenceGap)
    ensures g in LossesOf(losses, scope) <==>
      g.collector == scope.collector && Stores.LossRecord(scope, g.first, g.last) in losses
  {
    if losses != [] {
      assert losses == [losses[0]] + losses[1..];
      LossesAre(losses[1..], scope, g);
    }
  }

  ghost predicate OrderedLosses(losses: seq<Stores.LossRecord>) {
    forall i, j | 0 <= i < j < |losses| && losses[i].scope == losses[j].scope :: losses[i].last < losses[j].first
  }

  lemma OrderedTail(losses: seq<Stores.LossRecord>)
    requires OrderedLosses(losses) && losses != []
    ensures OrderedLosses(losses[1..])
    ensures forall r | r in losses[1..] && r.scope == losses[0].scope :: losses[0].last < r.first
  {
    var rest := losses[1..];
    assert forall i | 0 <= i < |rest| :: rest[i] == losses[i + 1];
  }

  lemma {:induction false} LossesStartAfter(losses: seq<Stores.LossRecord>, scope: Scope, bound: nat)
    requires forall r | r in losses && r.scope == scope :: bound < r.first
    ensures forall g | g in LossesOf(losses, scope) :: bound < g.first
  {
    if losses != [] {
      assert losses == [losses[0]] + losses[1..];
      LossesStartAfter(losses[1..], scope, bound);
    }
  }

  lemma {:induction false} LossesFollowOrder(losses: seq<Stores.LossRecord>, scope: Scope)
    requires OrderedLosses(losses)
    ensures OrderedGaps(LossesOf(losses, scope))
  {
    hide OrderedLosses;
    if losses != [] {
      OrderedTail(losses);
      LossesFollowOrder(losses[1..], scope);
      if losses[0].scope == scope {
        LossesStartAfter(losses[1..], scope, losses[0].last);
        var tail := LossesOf(losses[1..], scope);
        assert forall i | 0 <= i < |tail| :: tail[i] in tail;
      }
    }
  }

  /** Loss records come out of an ingested store in ascending order, as the query's ORDER BY asks. */
  lemma LossRecordsAreAscending(cfg: Stores.StoreConfig, s: Stores.StoreState, scope: Scope)
    requires Stores.StoreInv(cfg, s)
    ensures OrderedGaps(LossesOf(s.losses, scope))
  {
    Stores.LedgerDisjoint(s.rows);
    LossesFollowOrder(s.losses, scope);
  }

  /**
   * The gaps of a collector's coverage are exactly the ordered maximal intervals of 1..last that no row
   * read for it carries.
   */
  lemma CoverageGapsAreExact(s: Stores.StoreState, scope: Scope, all: seq<Event>, isStale: seq<Event> -> bool, collector: string)
    ensures var c := CoverageOf(s, scope, all, isStale, collector);
      var items := Items(all, collector);
      && OrderedGaps(c.gaps)
      && (forall g | g in c.gaps :: UnobservedRun(items, g))
      && (c.last.Some? ==> Observed(items, c.last.value) && forall n: nat | Observed(items, n) :: n <= c.last.value)
      && (c.last.Some? ==> forall n: nat | 1 <= n <= c.last.value && !Observed(items, n) :: InSomeGap(c.gaps, n))
      && (c.last.None? <==> items == [])
  {
    hide SequencesOf, GapsUpTo, Observed, OrderedGaps, UnobservedRun, MaximalGap, InSomeGap, Ascending;
    var items := Items(all, collector);
    var sequences := SequencesOf(items);
    SequencesFacts(items);
    LastIsLargest(items);
    GapsAreMaximal(collector, sequences, |sequences|);
    GapsAreOrdered(collector, sequences, |sequences|);
    forall g | g in GapsUpTo(collector, sequences, |sequences|) ensures UnobservedRun(items, g) {
      MaximalGapIsUnobserved(items, g);
    }
    if sequences != [] {
      forall n: nat | 1 <= n <= sequences[|sequences| - 1] && !Observed(items, n)
        ensures InSomeGap(GapsUpTo(collector, sequences, |sequences|), n)
      {
        MissingIsInSomeGap(collector, sequences, |sequences|, n);
      }
    }
  }

  lemma LastIsLargest(items: seq<Event>)
    ensures var s := SequencesOf(items);
      && (s == [] <==> items == [])
      && (s != [] ==> Observed(items, s[|s| - 1]) && forall n: nat | Observed(items, n) :: n <= s[|s| - 1])
  {
    var s := SequencesOf(items);
    SequencesFacts(items);
    assert items != [] ==> Observed(items, items[0].sequence);
    hide SequencesOf, Observed;
    if s != [] {
      assert s[|s| - 1] in s;
      forall n: nat | n in s ensures n <= s[|s| - 1] {
        var i :| 0 <= i < |s| && s[i] == n;
      }
    }
  }

  lemma MaximalGapIsUnobserved(items: seq<Event>, g: Stores.SequenceGap)
    requires MaximalGap(SequencesOf(items), g)
    ensures UnobservedRun(items, g)
  {
    hide SequencesOf, Observed;
    SequencesFacts(items);
  }

  /** No row carries a sequence of the run, and on either side a row (or the start) ends it. */
  ghost predicate UnobservedRun(items: seq<Event>, g: Stores.SequenceGap) {
    && 1 <= g.first <= g.last
    && (forall n: nat | g.first <= n <= g.last :: !Observed(items, n))
    && (g.first == 1 || Observed(items, g.first - 1))
    && Observed(items, g.last + 1)
  }

  function CountRestarts(items: seq<Event>): nat {
    if items == [] then 0
    else (if items[0].body.name == "collector.restarted" then 1 else 0) + CountRestarts(items[1..])
  }

  function SumDropped(items: seq<Event>): nat {
    if items == [] then 0
    else
      (match items[0].body.payload.droppedEvents case Some(n) => n case None => 0) + SumDropped(items[1..])
  }

  function UnsupportedClasses(items: seq<Event>): set<string> {
    set e | e in items && e.body.payload.unsupportedClass.Some? :: e.body.payload.unsupportedClass.value
  }

  /** `isStale` is the clock's view of a collector's latest observation. */
  function CoverageOf(s: Stores.StoreState, scope: Scope, all: seq<Event>, isStale: seq<Event> -> bool, collector: string)
    : CollectorCoverage
  {
    var items := Items(all, collector);
    var sequences := SequencesOf(items);
    CollectorCoverage(
      collector,
      if sequences == [] then None else Some(sequences[0]),
      if sequences == [] then None else Some(sequences[|sequences| - 1]),
      |items|,
      GapsUpTo(collector, sequences, |sequences|),
      LossesOf(s.losses, scope.(collector := collector)),
      CountRestarts(items),
      SumDropped(items),
      UnsupportedClasses(items),
      isStale(items))
  }

  predicate NameLess(a: string, b: string) {
    if a == [] then b != []
    else b != [] && (a[0] < b[0] || (a[0] == b[0] && NameLess(a[1..], b[1..])))
  }

  /** Insertion into the ordered collector map's keys. */
  function InsertName(names: seq<string>, x: string): (r: seq<string>)
    ensures forall y :: y in r <==> y in names || y == x
  {
    if names == [] || NameLess(x, names[0]) then [x] + names
    else if x == names[0] then names
    else
      assert names == [names[0]] + names[1..];
      [names[0]] + InsertName(names[1..], x)
  }

  function CollectorNames(all: seq<Event>): (r: seq<string>)
    ensures forall y :: y in r <==> exists e | e in all :: e.body.scope.collector == y
  {
    if all == [] then []
    else
      assert all == [all[0]] + all[1..];
      InsertName(CollectorNames(all[1..]), all[0].body.scope.collector)
  }

  function Coverage(s: Stores.StoreState, scope: Scope, all: seq<Event>, isStale: seq<Event> -> bool): seq<CollectorCoverage> {
    var names := CollectorNames(all);
    seq(|names|, i requires 0 <= i < |names| => CoverageOf(s, scope, all, isStale, names[i]))
  }

  function SumOf(coverage: seq<CollectorCoverage>, f: CollectorCoverage -> nat): nat {
    if coverage == [] then 0 else f(coverage[0]) + SumOf(coverage[1..], f)
  }

  /** The verdict from the summed counters of every listed collector. */
  predicate Complete(coverage: seq<CollectorCoverage>) {
    && coverage != []
    && SumOf(coverage, (c: CollectorCoverage) => |c.gaps|) == 0
    && SumOf(coverage, (c: CollectorCoverage) => |c.losses|) == 0
    && SumOf(coverage, (c: CollectorCoverage) => c.restarts) == 0
    && SumOf(coverage, (c: CollectorCoverage) => c.dropped) == 0
    && SumOf(coverage, (c: CollectorCoverage) => if c.stale then 1 else 0) == 0
    && (forall c | c in coverage :: c.unsupported == {})
  }

  predicate Clean(c: CollectorCoverage) {
    c.gaps == [] && c.losses == [] && c.restarts == 0 && c.dropped == 0 && !c.stale && c.unsupported == {}
  }

  lemma {:induction false} SumIsZeroIff(coverage: seq<CollectorCoverage>, f: CollectorCoverage -> nat)
    ensures SumOf(coverage, f) == 0 <==> forall c | c in coverage :: f(c) == 0
  {
    if coverage != [] {
      SumIsZeroIff(coverage[1..], f);
      assert coverage == [coverage[0]] + coverage[1..];
    }
  }

  /** A verdict is complete exactly when some collector is listed and every listed one is clean. */
  lemma CompleteIff(coverage: seq<CollectorCoverage>)
    ensures Complete(coverage) <==> coverage != [] && forall c | c in coverage :: Clean(c)
  {
    SumIsZeroIff(coverage, (c: CollectorCoverage) => |c.gaps|);
    SumIsZeroIff(coverage, (c: CollectorCoverage) => |c.losses|);
    SumIsZeroIff(coverage, (c: CollectorCoverage) => c.restarts);
    SumIsZeroIff(coverage, (c: CollectorCoverage) => c.dropped);
    SumIsZeroIff(coverage, (c: CollectorCoverage) => if c.stale then 1 else 0);
  }

  // ---------- the list of collectors ----------

  lemma {:induction false} NameOrder(a: string, b: string, c: string)
    ensures NameLess(a, b) || a == b || NameLess(b, a)
    ensures NameLess(a, b) && NameLess(b, c) ==> NameLess(a, c)
    ensures !NameLess(a, a)
  {
    if a != [] {
      NameOrder(a[1..], if b != [] then b[1..] else [], if c != [] then c[1..] else []);
      assert a == [a[0]] + a[1..] && (b != [] ==> b == [b[0]] + b[1..]);
    }
  }

  ghost predicate AscendingNames(names: seq<string>) {
    forall i, j | 0 <= i < j < |names| :: NameLess(names[i], names[j])
  }

  lemma ConsAscendingNames(x: string, names: seq<string>)
    requires AscendingNames(names) && forall y | y in names :: NameLess(x, y)
    ensures AscendingNames([x] + names)
  {
    hide NameLess;
    assert forall i | 0 <= i < |names| :: names[i] in names;
  }

  lemma {:induction false} InsertNameKeepsAscending(names: seq<string>, x: string)
    requires AscendingNames(names)
    ensures AscendingNames(InsertName(names, x))
  {
    hide NameLess;
    if names != [] {
      var rest := names[1..];
      assert names == [names[0]] + rest;
      assert forall i | 0 <= i < |rest| :: rest[i] == names[i + 1];
      NameOrder(x, names[0], x);
      if NameLess(x, names[0]) {
        forall y | y in names ensures NameLess(x, y) {
          NameOrder(x, names[0], y);
        }
        ConsAscendingNames(x, names);
      } else if x != names[0] {
        InsertNameKeepsAscending(rest, x);
        ConsAscendingNames(names[0], InsertName(rest, x));
      }
    }
  }

  lemma {:induction false} NamesAreAscending(all: seq<Event>)
    ensures AscendingNames(CollectorNames(all))
  {
    if all != [] {
      NamesAreAscending(all[1..]);
      InsertNameKeepsAscending(CollectorNames(all[1..]), all[0].body.scope.collector);
    }
  }

  /**
   * Coverage lists each collector of the rows once, in name order, with the number of its rows, the
   * smallest sequence among them, its counters and its recorded losses.
   */
  lemma CoverageListsEachOnce(s: Stores.StoreState, scope: Scope, all: seq<Event>, isStale: seq<Event> -> bool)
    ensures var coverage := Coverage(s, scope, all, isStale);
      && (forall i, j | 0 <= i < j < |coverage| :: NameLess(coverage[i].collector, coverage[j].collector))
      && (forall e | e in all :: exists c | c in coverage :: c.collector == e.body.scope.collector)
      && (forall c | c in coverage ::
            var items := Items(all, c.collector);
            && items != [] && c.eventCount == |items|
            && c.restarts == CountRestarts(items) && c.dropped == SumDropped(items)
            && c.losses == LossesOf(s.losses, scope.(collector := c.collector))
            && c.first.Some? && Observed(items, c.first.value) && forall n: nat | Observed(items, n) :: c.first.value <= n)
  {
    var names, coverage := CollectorNames(all), Coverage(s, scope, all, isStale);
    NamesAreAscending(all);
    hide CollectorNames, Items, NameLess, SequencesOf, Observed, GapsUpTo, LossesOf, CountRestarts, SumDropped, UnsupportedClasses;
    forall e | e in all ensures exists c | c in coverage :: c.collector == e.body.scope.collector {
      assert e.body.scope.collector in names;
      var i :| 0 <= i < |names| && names[i] == e.body.scope.collector;
      assert coverage[i] in coverage;
    }
    forall c | c in coverage ensures
      var items := Items(all, c.collector);
      && items != [] && c.eventCount == |items|
      && c.restarts == CountRestarts(items) && c.dropped == SumDropped(items)
      && c.losses == LossesOf(s.losses, scope.(collector := c.collector))
      && c.first.Some? && Observed(items, c.first.value) && forall n: nat | Observed(items, n) :: c.first.value <= n
    {
      var i :| 0 <= i < |coverage| && coverage[i] == c;
      assert names[i] in names;
      var e :| e in all && e.body.scope.collector == names[i];
      assert e in Items(all, names[i]);
      FirstIsSmallest(Items(all, names[i]));
    }
  }

  lemma FirstIsSmallest(items: seq<Event>)
    requires items != []
    ensures var s := SequencesOf(items);
      s != [] && Observed(items, s[0]) && forall n: nat | Observed(items, n) :: s[0] <= n
  {
    var s := SequencesOf(items);
    SequencesFacts(items);
    assert Observed(items, items[0].sequence);
    hide SequencesOf, Observed;
    assert s[0] in s;
    forall n: nat | n in s ensures s[0] <= n {
      var i :| 0 <= i < |s| && s[i] == n;
    }
  }

  // ---------- the verdict over the rows read ----------

  /** A collector's rows are picked part by part, in the order read. */
  lemma {:induction false} ItemsConcat(a: seq<Event>, b: seq<Event>, collector: string)
    ensures Items(a + b, collector) == Items(a, collector) + Items(b, collector)
  {
    if a == [] {
      assert a + b == b;
    } else {
      hide Items;
      ItemsConcat(a[1..], b, collector);
      assert a == [a[0]] + a[1..] && a + b == [a[0]] + (a[1..] + b);
      ItemsCons(a[0], a[1..], collector);
      ItemsCons(a[0], a[1..] + b, collector);
      var first := if a[0].body.scope.collector == collector then [a[0]] else [];
      ConcatIsAssociative(first, Items(a[1..], collector), Items(b, collector));
    }
  }

  lemma ConcatIsAssociative<T>(a: seq<T>, b: seq<T>, c: seq<T>)
    ensures a + (b + c) == (a + b) + c
  {
  }

  lemma ItemsCons(e: Event, s: seq<Event>, collector: string)
    ensures Items([e] + s, collector) == (if e.body.scope.collector == collector then [e] else []) + Items(s, collector)
  {
    assert ([e] + s)[1..] == s;
  }

  function DroppedBy(e: Event): nat {
    if e.body.payload.droppedEvents.Some? then e.body.payload.droppedEvents.value else 0
  }

  /** What the counters count: one per restart event, and the dropped events each row reports. */
  lemma {:induction false} CountersAdd(a: seq<Event>, e: Event)
    ensures CountRestarts(a + [e]) == CountRestarts(a) + if e.body.name == "collector.restarted" then 1 else 0
    ensures SumDropped(a + [e]) == SumDropped(a) + DroppedBy(e)
  {
    if a == [] {
      assert [] + [e] == [e] && [e][1..] == [];
    } else {
      assert (a + [e])[0] == a[0] && (a + [e])[1..] == a[1..] + [e];
      CountersAdd(a[1..], e);
    }
  }

  /** A row that by itself keeps a timeline from being complete. */
  ghost predicate Blemish(e: Event) {
    e.body.name == "collector.restarted" || DroppedBy(e) > 0 || e.body.payload.unsupportedClass.Some?
  }

  lemma {:induction false} CountersAreZeroIff(items: seq<Event>)
    ensures CountRestarts(items) == 0 && SumDropped(items) == 0 && UnsupportedClasses(items) == {} <==>
      forall e | e in items :: !Blemish(e)
  {
    if items == [] {
      assert UnsupportedClasses(items) == {};
    } else {
      var before, e := items[..|items| - 1], items[|items| - 1];
      assert items == before + [e];
      CountersAreZeroIff(before);
      CountersAdd(before, e);
      UnsupportedAppend(before, e);
      hide CountRestarts, SumDropped, UnsupportedClasses, Blemish;
      assert forall x :: x in items <==> x in before || x == e;
      BlemishIff(e);
    }
  }

  lemma UnsupportedAppend(items: seq<Event>, e: Event)
    ensures UnsupportedClasses(items + [e]) == {} <==> UnsupportedClasses(items) == {} && e.body.payload.unsupportedClass.None?
  {
    var all := items + [e];
    var added := if e.body.payload.unsupportedClass.Some? then {e.body.payload.unsupportedClass.value} else {};
    assert forall x :: x in all <==> x in items || x == e;
    forall c | c in UnsupportedClasses(items) ensures c in UnsupportedClasses(all) {
      var x :| x in items && x.body.payload.unsupportedClass == Some(c);
      assert x in all;
    }
    forall c | c in added ensures c in UnsupportedClasses(all) {
      assert e in all && e.body.payload.unsupportedClass == Some(c);
    }
    assert UnsupportedClasses(all) == UnsupportedClasses(items) + added;
  }

  lemma BlemishIff(e: Event)
    ensures Blemish(e) <==>
      e.body.name == "collector.restarted" || DroppedBy(e) > 0 || e.body.payload.unsupportedClass.Some?
  {
  }

  /** Every sequence up to a collector's highest one is carried by one of its rows. */
  ghost predicate NoHole(items: seq<Event>) {
    forall e, n: nat | e in items && 1 <= n <= e.sequence :: Observed(items, n)
  }

  lemma NoGapIff(s: Stores.StoreState, scope: Scope, all: seq<Event>, isStale: seq<Event> -> bool, collector: string)
    ensures CoverageOf(s, scope, all, isStale, collector).gaps == [] <==> NoHole(Items(all, collector))
  {
    CoverageGapsAreExact(s, scope, all, isStale, collector);
    var c, items := CoverageOf(s, scope, all, isStale, collector), Items(all, collector);
    hide CoverageOf, Items;
    if c.gaps == [] {
      forall e, n: nat | e in items && 1 <= n <= e.sequence ensures Observed(items, n) {
        assert Observed(items, e.sequence);
      }
    } else {
      var g := c.gaps[0];
      assert g in c.gaps && UnobservedRun(items, g);
      var end :| end in items && end.sequence == g.last + 1;
      assert !Observed(items, g.first);
    }
  }

  /** What a listed collector must satisfy, from its rows and the loss table. */
  ghost predicate CleanRows(s: Stores.StoreState, scope: Scope, items: seq<Event>, stale: bool, collector: string) {
    && (forall e | e in items :: !Blemish(e))
    && NoHole(items)
    && !stale
    && (forall r | r in s.losses :: r.scope != scope.(collector := collector))
  }

  lemma CleanIff(s: Stores.StoreState, scope: Scope, all: seq<Event>, isStale: seq<Event> -> bool, collector: string)
    ensures Clean(CoverageOf(s, scope, all, isStale, collector)) <==>
      CleanRows(s, scope, Items(all, collector), isStale(Items(all, collector)), collector)
  {
    NoGapIff(s, scope, all, isStale, collector);
    CountersAreZeroIff(Items(all, collector));
    NoLossesIff(s.losses, scope.(collector := collector));
    hide CountRestarts, SumDropped, UnsupportedClasses, LossesOf, GapsUpTo, SequencesOf, NoHole, Blemish, Items;
  }

  /**
   * The verdict over the rows read, naming no counter: it is complete if and only if rows were read, none
   * reports a restart, a dropped event or an unsupported class, no collector's rows are stale or leave a
   * hole below their highest sequence, and no loss is recorded for a collector among them.
   */
  lemma CompleteOverRowsIff(s: Stores.StoreState, scope: Scope, all: seq<Event>, isStale: seq<Event> -> bool)
    ensures Complete(Coverage(s, scope, all, isStale)) <==>
      && all != []
      && (forall e | e in all ::
            && e.body.name != "collector.restarted"
            && (e.body.payload.droppedEvents.Some? ==> e.body.payload.droppedEvents.value == 0)
            && e.body.payload.unsupportedClass.None?
            && !isStale(Items(all, e.body.scope.collector))
            && (forall n: nat | 1 <= n <= e.sequence :: Observed(Items(all, e.body.scope.collector), n))
            && (forall r | r in s.losses :: r.scope != scope.(collector := e.body.scope.collector)))
  {
    var coverage := Coverage(s, scope, all, isStale);
    CompleteIff(coverage);
    ListedIff(s, scope, all, isStale);
    forall e | e in all ensures Clean(CoverageOf(s, scope, all, isStale, e.body.scope.collector)) <==>
      RowsOfCollectorAreClean(s, scope, all, isStale, e.body.scope.collector)
    {
      CleanIff(s, scope, all, isStale, e.body.scope.collector);
    }
    RowsAreCleanIff(s, scope, all, isStale);
    hide Complete, Clean, CoverageOf, Coverage, RowsOfCollectorAreClean, Items;
  }

  ghost predicate RowsOfCollectorAreClean(s: Stores.StoreState, scope: Scope, all: seq<Event>, isStale: seq<Event> -> bool, collector: string) {
    CleanRows(s, scope, Items(all, collector), isStale(Items(all, collector)), collector)
  }

  /** The collectors listed are exactly those of the rows. */
  lemma ListedIff(s: Stores.StoreState, scope: Scope, all: seq<Event>, isStale: seq<Event> -> bool)
    ensures var coverage := Coverage(s, scope, all, isStale);
      && (coverage != [] <==> all != [])
      && ((forall c | c in coverage :: Clean(c)) <==>
            forall e | e in all :: Clean(CoverageOf(s, scope, all, isStale, e.body.scope.collector)))
  {
    var names, coverage := CollectorNames(all), Coverage(s, scope, all, isStale);
    hide Clean, CoverageOf, CollectorNames;
    assert all != [] ==> all[0].body.scope.collector in names;
    forall e | e in all ensures CoverageOf(s, scope, all, isStale, e.body.scope.collector) in coverage {
      assert e.body.scope.collector in names;
      var i :| 0 <= i < |names| && names[i] == e.body.scope.collector;
      assert coverage[i] == CoverageOf(s, scope, all, isStale, names[i]);
    }
    forall c | c in coverage ensures exists e | e in all :: c == CoverageOf(s, scope, all, isStale, e.body.scope.collector) {
      var i :| 0 <= i < |coverage| && coverage[i] == c;
      assert names[i] in names;
    }
    assert names != [] ==> names[0] in names;
  }

  /** Clean collectors are clean rows: the conditions can be read off row by row. */
  lemma RowsAreCleanIff(s: Stores.StoreState, scope: Scope, all: seq<Event>, isStale: seq<Event> -> bool)
    ensures (forall e | e in all :: RowsOfCollectorAreClean(s, scope, all, isStale, e.body.scope.collector)) <==>
      forall e | e in all ::
            && e.body.name != "collector.restarted"
            && (e.body.payload.droppedEvents.Some? ==> e.body.payload.droppedEvents.value == 0)
            && e.body.payload.unsupportedClass.None?
            && !isStale(Items(all, e.body.scope.collector))
            && (forall n: nat | 1 <= n <= e.sequence :: Observed(Items(all, e.body.scope.collector), n))
            && (forall r | r in s.losses :: r.scope != scope.(collector := e.body.scope.collector))
  {
    hide Observed;
    assert forall e | e in all :: e in Items(all, e.body.scope.collector);
  }

  // ---------- what the verdict means for the store ----------

  /** The rows of one scope, in arrival order. */
  function ArrivalsOf(rows: seq<Event>, scope: Scope): seq<Event> {
    if rows == [] then []
    else
      var before, e := rows[..|rows| - 1], rows[|rows| - 1];
      ArrivalsOf(before, scope) + if e.body.scope == scope then [e] else []
  }

  /** Arrivals came strictly in order and without a hole: 1, 2, 3, ... */
  ghost predicate InOrder(rows: seq<Event>, scope: Scope) {
    var a := ArrivalsOf(rows, scope);
    forall i | 0 <= i < |a| :: a[i].sequence == i + 1
  }

  ghost predicate NoLoss(rows: seq<Event>, scope: Scope) {
    forall r | r in Stores.Ledger(rows) :: r.scope != scope
  }

  lemma {:induction false} ArrivalsAreRows(rows: seq<Event>, scope: Scope)
    ensures forall x :: x in ArrivalsOf(rows, scope) <==> x in rows && x.body.scope == scope
  {
    if rows != [] {
      var before, e := rows[..|rows| - 1], rows[|rows| - 1];
      assert rows == before + [e];
      ArrivalsAreRows(before, scope);
    }
  }

  lemma {:induction false} InOrderHighest(rows: seq<Event>, scope: Scope)
    requires InOrder(rows, scope)
    ensures Stores.Highest(rows, scope) == |ArrivalsOf(rows, scope)|
  {
    if rows != [] {
      var before, e := rows[..|rows| - 1], rows[|rows| - 1];
      var a, b := ArrivalsOf(rows, scope), ArrivalsOf(before, scope);
      forall i | 0 <= i < |b| ensures b[i].sequence == i + 1 {
        assert b[i] == a[i];
      }
      InOrderHighest(before, scope);
      if e.body.scope == scope {
        assert a[|a| - 1] == e;
      }
    }
  }

  lemma InOrderStoresAll(rows: seq<Event>, scope: Scope, k: nat)
    requires InOrder(rows, scope)
    requires 1 <= k <= |ArrivalsOf(rows, scope)|
    ensures Stores.HasSequence(rows, scope, k)
  {
    ArrivalsAreRows(rows, scope);
    assert ArrivalsOf(rows, scope)[k - 1] in ArrivalsOf(rows, scope);
  }

  lemma DistinctPrefix(rows: seq<Event>)
    requires Stores.DistinctRows(rows) && rows != []
    ensures Stores.DistinctRows(rows[..|rows| - 1])
    ensures var e := rows[|rows| - 1]; !Stores.HasSequence(rows[..|rows| - 1], e.body.scope, e.sequence)
  {
    var before, e := rows[..|rows| - 1], rows[|rows| - 1];
    forall x | x in before ensures !(x.body.scope == e.body.scope && x.sequence == e.sequence) {
      var i :| 0 <= i < |before| && before[i] == x;
      assert rows[i] == x;
    }
  }

  /** A scope has no loss record exactly when its events arrived in order. */
  lemma {:induction false} NoLossIffInOrder(rows: seq<Event>, scope: Scope)
    requires Stores.DistinctRows(rows)
    requires forall x | x in rows :: x.sequence >= 1
    ensures NoLoss(rows, scope) <==> InOrder(rows, scope)
  {
    hide Stores.DistinctRows, Stores.HasSequence;
    if rows != [] {
      var before, e := rows[..|rows| - 1], rows[|rows| - 1];
      assert rows == before + [e];
      DistinctPrefix(rows);
      NoLossIffInOrder(before, scope);
      var a, b := ArrivalsOf(rows, scope), ArrivalsOf(before, scope);
      assert forall r | r in Stores.Ledger(before) :: r in Stores.Ledger(rows);
      if e.body.scope == scope {
        assert a == b + [e];
        if InOrder(before, scope) {
          InOrderHighest(before, scope);
          if e.sequence <= |b| {
            InOrderStoresAll(before, scope, e.sequence);
            assert false;
          }
          LastArrivalDecides(rows, scope);
        } else {
          var i :| 0 <= i < |b| && b[i].sequence != i + 1;
          assert a[i] == b[i];
          var r :| r in Stores.Ledger(before) && r.scope == scope;
          assert r in Stores.Ledger(rows);
        }
      } else {
        assert a == b;
        assert forall r | r in Stores.Ledger(rows) :: r in Stores.Ledger(before) || r.scope == e.body.scope;
      }
    }
  }

  lemma LastArrivalDecides(rows: seq<Event>, scope: Scope)
    requires rows != [] && rows[|rows| - 1].body.scope == scope
    requires InOrder(rows[..|rows| - 1], scope) && NoLoss(rows[..|rows| - 1], scope)
    requires rows[|rows| - 1].sequence > |ArrivalsOf(rows[..|rows| - 1], scope)|
    ensures NoLoss(rows, scope) <==> InOrder(rows, scope)
  {
    var before, e := rows[..|rows| - 1], rows[|rows| - 1];
    var a, b := ArrivalsOf(rows, scope), ArrivalsOf(before, scope);
    InOrderHighest(before, scope);
    assert a == b + [e] && forall i | 0 <= i < |b| :: a[i] == b[i];
    if e.sequence > |b| + 1 {
      var r := Stores.LossRecord(scope, |b| + 1, e.sequence - 1);
      assert Stores.Ledger(rows) == Stores.Ledger(before) + [r];
      assert r in Stores.Ledger(rows) && a[|b|] == e;
    } else {
      assert Stores.Ledger(rows) == Stores.Ledger(before);
    }
  }

  /** The stored sequences of a scope are exactly 1..highest and the durable mark has reached the highest. */
  ghost predicate FullyDelivered(s: Stores.StoreState, scope: Scope) {
    var n := Stores.Highest(s.rows, scope);
    && InOrder(s.rows, scope)
    && n == |ArrivalsOf(s.rows, scope)|
    && Stores.MarkOf(s.marks, scope) == n
  }

  lemma NoLossMeansFullyDelivered(cfg: Stores.StoreConfig, s: Stores.StoreState, scope: Scope)
    requires Stores.StoreInv(cfg, s)
    requires NoLoss(s.rows, scope)
    ensures FullyDelivered(s, scope)
  {
    NoLossIffInOrder(s.rows, scope);
    InOrderHighest(s.rows, scope);
    var n, m := |ArrivalsOf(s.rows, scope)|, Stores.MarkOf(s.marks, scope);
    forall k | 1 <= k <= n ensures Stores.HasSequence(s.rows, scope, k) {
      InOrderStoresAll(s.rows, scope, k);
    }
    Stores.DurableIsUnique(s.rows, scope, m, n);
    if m > 0 {
      assert Stores.HasSequence(s.rows, scope, m);
      Stores.HighestBounds(s.rows, scope);
    }
  }

  /**
   * A complete verdict over any rows read from a store written by ingest means, for each collector
   * listed: its events arrived strictly in order, the stored sequences are exactly 1..highest, and
   * the durable prefix has reached the highest.
   */
  lemma CompleteMeansFullyDelivered(
    cfg: Stores.StoreConfig, s: Stores.StoreState, scope: Scope, all: seq<Event>, isStale: seq<Event> -> bool, e: Event)
    requires Stores.StoreInv(cfg, s)
    requires Complete(Coverage(s, scope, all, isStale))
    requires e in all
    ensures FullyDelivered(s, scope.(collector := e.body.scope.collector))
  {
    var collector := e.body.scope.collector;
    var names, coverage := CollectorNames(all), Coverage(s, scope, all, isStale);
    assert collector in names;
    var i :| 0 <= i < |names| && names[i] == collector;
    CompleteIff(coverage);
    assert coverage[i] in coverage && Clean(coverage[i]);
    var sc := scope.(collector := collector);
    assert coverage[i].losses == LossesOf(s.losses, sc) == [];
    NoLossesIff(s.losses, sc);
    NoLossMeansFullyDelivered(cfg, s, sc);
  }

  /** The arrival that ended a recorded range is itself stored. */
  lemma {:induction false} LossEndIsStored(rows: seq<Event>, r: Stores.LossRecord)
    requires r in Stores.Ledger(rows)
    ensures Stores.HasSequence(rows, r.scope, r.last + 1)
  {
    var before, e := rows[..|rows| - 1], rows[|rows| - 1];
    assert rows == before + [e];
    if r in Stores.Ledger(before) {
      LossEndIsStored(before, r);
      var x :| x in before && x.body.scope == r.scope && x.sequence == r.last + 1;
      assert x in rows;
    } else {
      assert e in rows;
    }
  }

  /** When the read covers every row of the agent, its sequences are those stored for the collector. */
  lemma ReadSequencesAreStored(rows: seq<Event>, scope: Scope, all: seq<Event>, collector: string)
    requires forall x :: x in all <==> x in rows && x.body.scope == scope.(collector := x.body.scope.collector)
    ensures forall n :: n in SequencesOf(Items(all, collector)) <==> Stores.HasSequence(rows, scope.(collector := collector), n)
  {
    var items := Items(all, collector);
    var sc := scope.(collector := collector);
    SequencesFacts(items);
    hide SequencesOf;
    forall n | Stores.HasSequence(rows, sc, n) ensures Observed(items, n) {
      var x :| x in rows && x.body.scope == sc && x.sequence == n;
      assert x in items;
    }
  }

  /**
   * When the read covers every row of the agent, each coverage gap lies inside a single recorded
   * loss range of its collector.
   */
  lemma GapLiesInOneLossRange(
    cfg: Stores.StoreConfig, s: Stores.StoreState, scope: Scope, all: seq<Event>, isStale: seq<Event> -> bool,
    collector: string, g: Stores.SequenceGap)
    requires Stores.StoreInv(cfg, s)
    requires forall x :: x in all <==> x in s.rows && x.body.scope == scope.(collector := x.body.scope.collector)
    requires g in CoverageOf(s, scope, all, isStale, collector).gaps
    ensures exists r | r in s.losses ::
      r.scope == scope.(collector := collector) && r.first <= g.first && g.last <= r.last
  {
    assert s.losses == Stores.Ledger(s.rows);
    hide Stores.StoreInv, Stores.Ledger, Stores.HasSequence, CoverageOf, Stores.Highest;
    var sc := scope.(collector := collector);
    GapIsMissing(s, scope, all, isStale, collector, g);
    HighestOfStored(s.rows, sc, g.last + 1);
    Stores.MissingIsRecordedOnce(cfg, s, sc, g.first);
    var i :| 0 <= i < |s.losses| && Stores.RecordedOnlyAt(s.losses, i, sc, g.first);
    LossEndIsStored(s.rows, s.losses[i]);
  }

  /** A reported gap is missing from the table, and the sequence after it is there. */
  lemma GapIsMissing(
    s: Stores.StoreState, scope: Scope, all: seq<Event>, isStale: seq<Event> -> bool, collector: string, g: Stores.SequenceGap)
    requires forall x :: x in all <==> x in s.rows && x.body.scope == scope.(collector := x.body.scope.collector)
    requires g in CoverageOf(s, scope, all, isStale, collector).gaps
    ensures var sc := scope.(collector := collector);
      && 1 <= g.first <= g.last && Stores.HasSequence(s.rows, sc, g.last + 1)
      && forall n | g.first <= n <= g.last :: !Stores.HasSequence(s.rows, sc, n)
  {
    hide SequencesOf, GapsUpTo, Stores.HasSequence;
    var sequences := SequencesOf(Items(all, collector));
    SequencesFacts(Items(all, collector));
    ReadSequencesAreStored(s.rows, scope, all, collector);
    GapsAreMaximal(collector, sequences, |sequences|);
  }

  lemma HighestOfStored(rows: seq<Event>, scope: Scope, n: nat)
    requires Stores.HasSequence(rows, scope, n)
    ensures n <= Stores.Highest(rows, scope)
  {
    Stores.HighestBounds(rows, scope);
  }
}
