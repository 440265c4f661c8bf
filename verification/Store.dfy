/** The management store: transactional, loss-aware ingest of activity batches. */
module ActivityStores {
  import opened Outcomes
  import opened ActivityEvents

  const MAX_BATCH_EVENTS: nat := 1000

  datatype ActivityError = Invalid | ScopeMismatch | Corrupt

  /** The content checks of `validate_event` before and after its scope check, and the 1 MiB envelope limit. */
  datatype StoreConfig = StoreConfig(headOk: Event -> bool, tailOk: Event -> bool, fits: Event -> bool)

  datatype SequenceGap = SequenceGap(collector: string, first: nat, last: nat)

  datatype LossRecord = LossRecord(scope: Scope, first: nat, last: nat)

  datatype IngestAck = IngestAck(accepted: nat, duplicates: nat, durableThrough: nat, gaps: seq<SequenceGap>)

  /** The three tables; rows and loss records are kept in insertion order. */
  datatype StoreState = StoreState(rows: seq<Event>, marks: map<Scope, nat>, losses: seq<LossRecord>)

  const EMPTY_STORE := StoreState([], map[], [])

  // ---------- table look-ups ----------

  function FindById(rows: seq<Event>, id: string): (r: Option<Event>)
    ensures r.None? <==> forall x | x in rows :: x.id != id
    ensures r.Some? ==> r.value in rows && r.value.id == id
  {
    if rows == [] then None
    else if rows[0].id == id then Some(rows[0])
    else FindById(rows[1..], id)
  }

  predicate HasSequence(rows: seq<Event>, scope: Scope, n: nat) {
    exists x | x in rows :: x.body.scope == scope && x.sequence == n
  }

  /** `COALESCE(MAX(collector_sequence), 0)` over one scope. */
  function Highest(rows: seq<Event>, scope: Scope): nat {
    if rows == [] then 0
    else
      var last := rows[|rows| - 1];
      var h := Highest(rows[..|rows| - 1], scope);
      if last.body.scope == scope && last.sequence > h then last.sequence else h
  }

  lemma {:induction false} HighestBounds(rows: seq<Event>, scope: Scope)
    ensures forall x | x in rows && x.body.scope == scope :: x.sequence <= Highest(rows, scope)
  {
    if rows != [] {
      var before, last := rows[..|rows| - 1], rows[|rows| - 1];
      assert rows == before + [last];
      HighestBounds(before, scope);
    }
  }

  function MarkOf(marks: map<Scope, nat>, scope: Scope): nat {
    if scope in marks then marks[scope] else 0
  }

  function ValidateEvent(cfg: StoreConfig, scope: Scope, e: Event): Option<ActivityError> {
    if e.schemaVersion != SCHEMA_VERSION || e.sequence == 0 || e.sequence > I64_MAX || !cfg.headOk(e) then Some(Invalid)
    else if e.body.scope != scope then Some(ScopeMismatch)
    else if !cfg.tailOk(e) then Some(Invalid)
    else None
  }

  /** The first invalid event decides the error of a batch. */
  function ValidateBatch(cfg: StoreConfig, scope: Scope, batch: seq<Event>): (r: Option<ActivityError>)
    ensures r.None? <==> forall e | e in batch :: ValidateEvent(cfg, scope, e).None?
  {
    if batch == [] then None
    else if ValidateEvent(cfg, scope, batch[0]).Some? then ValidateEvent(cfg, scope, batch[0])
    else ValidateBatch(cfg, scope, batch[1..])
  }

  // ---------- one ingest transaction ----------

  /** The variables of an open transaction. */
  datatype Tx = Tx(
    rows: seq<Event>,
    losses: seq<LossRecord>,
    durable: nat,
    highest: nat,
    accepted: nat,
    duplicates: nat,
    gaps: seq<SequenceGap>)

  /** `INSERT OR IGNORE` under the unique constraint of the loss table. */
  function InsertLoss(losses: seq<LossRecord>, r: LossRecord): seq<LossRecord> {
    if r in losses then losses else losses + [r]
  }

  /** Advances a durable mark across stored successors. */
  function Advance(rows: seq<Event>, scope: Scope, durable: nat): (r: nat)
    ensures r >= durable
    ensures forall k | durable < k <= r :: HasSequence(rows, scope, k)
    ensures !HasSequence(rows, scope, r + 1)
    decreases Highest(rows, scope) - durable
  {
    HighestBounds(rows, scope);
    if HasSequence(rows, scope, durable + 1) then Advance(rows, scope, durable + 1) else durable
  }

  /** Stores one event that is new to the table. */
  function Insert(scope: Scope, tx: Tx, e: Event): Tx {
    var isGap := e.sequence > tx.highest + 1;
    var rows := tx.rows + [e];
    Tx(rows,
       if isGap then InsertLoss(tx.losses, LossRecord(scope, tx.highest + 1, e.sequence - 1)) else tx.losses,
       Advance(rows, scope, tx.durable),
       if e.sequence > tx.highest then e.sequence else tx.highest,
       tx.accepted + 1,
       tx.duplicates,
       if isGap then tx.gaps + [SequenceGap(scope.collector, tx.highest + 1, e.sequence - 1)] else tx.gaps)
  }

  function ApplyEvent(cfg: StoreConfig, scope: Scope, tx: Tx, e: Event): Result<Tx, ActivityError> {
    match FindById(tx.rows, e.id)
    case Some(x) =>
      if ValidateEvent(cfg, scope, x).Some? then Failure(Corrupt)
      else if x != e then Failure(Invalid)
      else Success(tx.(duplicates := tx.duplicates + 1))
    case None =>
      if HasSequence(tx.rows, scope, e.sequence) then Failure(Invalid)
      else if !cfg.fits(e) then Failure(Invalid)
      else Success(Insert(scope, tx, e))
  }

  function ApplyBatch(cfg: StoreConfig, scope: Scope, tx: Tx, batch: seq<Event>): Result<Tx, ActivityError>
    decreases |batch|
  {
    if batch == [] then Success(tx)
    else
      match ApplyEvent(cfg, scope, tx, batch[0])
      case Failure(error) => Failure(error)
      case Success(next) => ApplyBatch(cfg, scope, next, batch[1..])
  }

  function Begin(s: StoreState, scope: Scope): Tx {
    Tx(s.rows, s.losses, MarkOf(s.marks, scope), Highest(s.rows, scope), 0, 0, [])
  }

  function Commit(s: StoreState, scope: Scope, tx: Tx): StoreState {
    var kept := MarkOf(s.marks, scope);
    StoreState(tx.rows, s.marks[scope := if kept > tx.durable then kept else tx.durable], tx.losses)
  }

  function IngestBatch(cfg: StoreConfig, s: StoreState, scope: Scope, batch: seq<Event>)
    : Result<(StoreState, IngestAck), ActivityError>
  {
    if batch == [] || |batch| > MAX_BATCH_EVENTS then Failure(Invalid)
    else
      match ValidateBatch(cfg, scope, batch)
      case Some(error) => Failure(error)
      case None =>
        match ApplyBatch(cfg, scope, Begin(s, scope), batch)
        case Failure(error) => Failure(error)
        case Success(tx) =>
          Success((Commit(s, scope, tx), IngestAck(tx.accepted, tx.duplicates, tx.durable, tx.gaps)))
  }

  // ---------- what the tables keep ----------

  /** `n` is the largest number such that 1..n are all stored. */
  ghost predicate IsDurable(rows: seq<Event>, scope: Scope, n: nat) {
    && (forall k | 1 <= k <= n :: HasSequence(rows, scope, k))
    && !HasSequence(rows, scope, n + 1)
  }

  /** Two events cannot share an identifier, or a sequence of one scope, unless they are the same event. */
  ghost predicate Agree(x: Event, e: Event) {
    x.id == e.id || (x.body.scope == e.body.scope && x.sequence == e.sequence) ==> x == e
  }

  ghost predicate DistinctRows(rows: seq<Event>) {
    forall i, j | 0 <= i < j < |rows| ::
      && rows[i].id != rows[j].id
      && !(rows[i].body.scope == rows[j].body.scope && rows[i].sequence == rows[j].sequence)
  }

  ghost predicate ValidRows(cfg: StoreConfig, rows: seq<Event>) {
    forall x | x in rows :: ValidateEvent(cfg, x.body.scope, x).None? && cfg.fits(x)
  }

  /** The loss records that a row history should have left behind, from the rows alone. */
  function Ledger(rows: seq<Event>): seq<LossRecord> {
    if rows == [] then []
    else
      var before, e := rows[..|rows| - 1], rows[|rows| - 1];
      var h := Highest(before, e.body.scope);
      Ledger(before) + if e.sequence > h + 1 then [LossRecord(e.body.scope, h + 1, e.sequence - 1)] else []
  }

  ghost predicate StoreInv(cfg: StoreConfig, s: StoreState) {
    && DistinctRows(s.rows)
    && ValidRows(cfg, s.rows)
    && s.losses == Ledger(s.rows)
    && (forall scope :: IsDurable(s.rows, scope, MarkOf(s.marks, scope)))
    && HaveMarks(s.rows, s.marks)
  }

  /** Every scope with a stored event has an entry in the collector table. */
  ghost predicate HaveMarks(rows: seq<Event>, marks: map<Scope, nat>) {
    forall x | x in rows :: x.body.scope in marks
  }

  ghost predicate TxInv(cfg: StoreConfig, scope: Scope, tx: Tx) {
    && DistinctRows(tx.rows)
    && ValidRows(cfg, tx.rows)
    && tx.losses == Ledger(tx.rows)
    && tx.highest == Highest(tx.rows, scope)
    && IsDurable(tx.rows, scope, tx.durable)
  }

  // ---------- the loss ledger ----------

  /** The sequence arrived as a new maximum of its scope. */
  ghost predicate NewMaximum(rows: seq<Event>, scope: Scope, n: nat) {
    exists i | 0 <= i < |rows| ::
      rows[i].body.scope == scope && rows[i].sequence == n && n > Highest(rows[..i], scope)
  }

  predicate InRange(r: LossRecord, scope: Scope, n: nat) {
    r.scope == scope && r.first <= n <= r.last
  }

  ghost predicate Recorded(losses: seq<LossRecord>, scope: Scope, n: nat) {
    exists r | r in losses :: InRange(r, scope, n)
  }

  ghost predicate RecordedOnlyAt(losses: seq<LossRecord>, i: nat, scope: Scope, n: nat)
    requires i < |losses|
  {
    && InRange(losses[i], scope, n)
    && forall j | 0 <= j < |losses| && InRange(losses[j], scope, n) :: j == i
  }

  /** Loss ranges are non-empty, start at 1 or later, and end below the highest sequence of their scope. */
  lemma {:induction false} LedgerBounds(rows: seq<Event>)
    ensures forall r | r in Ledger(rows) :: 1 <= r.first <= r.last < Highest(rows, r.scope)
  {
    if rows != [] {
      LedgerBounds(rows[..|rows| - 1]);
    }
  }

  /** Ranges of one scope never overlap: each later one starts after every earlier one ends. */
  lemma {:induction false} LedgerDisjoint(rows: seq<Event>)
    ensures forall i, j | 0 <= i < j < |Ledger(rows)| && Ledger(rows)[i].scope == Ledger(rows)[j].scope ::
      Ledger(rows)[i].last < Ledger(rows)[j].first
  {
    if rows != [] {
      var before := rows[..|rows| - 1];
      LedgerDisjoint(before);
      LedgerBounds(before);
      var l := Ledger(before);
      assert forall i | 0 <= i < |l| :: l[i] in l;
    }
  }

  lemma NewMaximumGrows(before: seq<Event>, e: Event, scope: Scope, n: nat)
    ensures NewMaximum(before + [e], scope, n) <==>
      NewMaximum(before, scope, n) || (e.body.scope == scope && e.sequence == n && n > Highest(before, scope))
  {
    var rows := before + [e];
    assert forall i | 0 <= i < |before| :: rows[..i] == before[..i] && rows[i] == before[i];
    assert rows[..|before|] == before && rows[|before|] == e;
  }

  /** 1..highest splits into the sequences that arrived as a new maximum and the recorded loss ranges. */
  lemma {:induction false} LedgerPartition(rows: seq<Event>, scope: Scope, n: nat)
    requires 1 <= n <= Highest(rows, scope)
    ensures NewMaximum(rows, scope, n) <==> !Recorded(Ledger(rows), scope, n)
  {
    var before, e := rows[..|rows| - 1], rows[|rows| - 1];
    assert rows == before + [e];
    NewMaximumGrows(before, e, scope, n);
    LedgerBounds(before);
    var h := Highest(before, scope);
    if n <= h {
      LedgerPartition(before, scope, n);
    } else {
      NewMaximaAreBounded(before, scope);
      if n < e.sequence {
        var r := LossRecord(scope, h + 1, e.sequence - 1);
        assert Ledger(rows)[|Ledger(before)|] == r && InRange(r, scope, n);
      }
    }
  }

  lemma NewMaximaAreBounded(rows: seq<Event>, scope: Scope)
    ensures forall n: nat | NewMaximum(rows, scope, n) :: n <= Highest(rows, scope)
  {
    forall n: nat | NewMaximum(rows, scope, n) ensures n <= Highest(rows, scope) {
      var i :| 0 <= i < |rows| && rows[i].body.scope == scope && rows[i].sequence == n && n > Highest(rows[..i], scope);
      assert rows[i] in rows;
      HighestBounds(rows, scope);
    }
  }

  lemma NewMaximumIsStored(rows: seq<Event>, scope: Scope, n: nat)
    requires NewMaximum(rows, scope, n)
    ensures HasSequence(rows, scope, n)
  {
    var i :| 0 <= i < |rows| && rows[i].body.scope == scope && rows[i].sequence == n && n > Highest(rows[..i], scope);
    assert rows[i] in rows;
  }

  /** A range recorded for a new arrival is never already in the table, so the insert never ignores it. */
  lemma LossInsertNeverIgnored(cfg: StoreConfig, scope: Scope, tx: Tx, e: Event)
    requires TxInv(cfg, scope, tx)
    requires e.sequence > tx.highest + 1
    ensures var r := LossRecord(scope, tx.highest + 1, e.sequence - 1);
      r !in tx.losses && InsertLoss(tx.losses, r) == tx.losses + [r]
  {
    LedgerBounds(tx.rows);
  }

  /** A sequence that is missing below the highest one lies in exactly one recorded range. */
  lemma MissingIsRecordedOnce(cfg: StoreConfig, s: StoreState, scope: Scope, n: nat)
    requires StoreInv(cfg, s)
    requires 1 <= n <= Highest(s.rows, scope)
    requires !HasSequence(s.rows, scope, n)
    ensures exists i | 0 <= i < |s.losses| :: RecordedOnlyAt(s.losses, i, scope, n)
  {
    if NewMaximum(s.rows, scope, n) {
      NewMaximumIsStored(s.rows, scope, n);
      assert false;
    }
    LedgerPartition(s.rows, scope, n);
    LedgerDisjoint(s.rows);
    var l := s.losses;
    var r :| r in l && InRange(r, scope, n);
    var i :| 0 <= i < |l| && l[i] == r;
    assert forall j | 0 <= j < i && l[j].scope == scope :: l[j].last < l[i].first;
    assert forall j | i < j < |l| && l[j].scope == scope :: l[i].last < l[j].first;
    assert RecordedOnlyAt(l, i, scope, n);
  }

  // ---------- one transaction keeps the invariant ----------

  lemma LastRow(rows: seq<Event>, e: Event)
    ensures (rows + [e])[..|rows + [e]| - 1] == rows && (rows + [e])[|rows + [e]| - 1] == e
  {
  }

  lemma AppendedSequence(rows: seq<Event>, e: Event, scope: Scope, n: nat)
    ensures HasSequence(rows + [e], scope, n) <==>
      HasSequence(rows, scope, n) || (e.body.scope == scope && e.sequence == n)
  {
    if HasSequence(rows, scope, n) {
      var x :| x in rows && x.body.scope == scope && x.sequence == n;
      assert x in rows + [e];
    }
    assert e in rows + [e];
  }

  lemma InsertKeepsDurable(rows: seq<Event>, e: Event, scope: Scope, durable: nat)
    requires IsDurable(rows, scope, durable)
    ensures IsDurable(rows + [e], scope, Advance(rows + [e], scope, durable))
  {
    var r := Advance(rows + [e], scope, durable);
    forall k | 1 <= k <= r ensures HasSequence(rows + [e], scope, k) {
      AppendedSequence(rows, e, scope, k);
    }
  }

  lemma InsertKeepsDistinct(rows: seq<Event>, e: Event)
    requires DistinctRows(rows)
    requires FindById(rows, e.id).None? && !HasSequence(rows, e.body.scope, e.sequence)
    ensures DistinctRows(rows + [e])
  {
    var all := rows + [e];
    forall i, j | 0 <= i < j < |all| ensures all[i].id != all[j].id
      && !(all[i].body.scope == all[j].body.scope && all[i].sequence == all[j].sequence)
    {
      assert all[i] in rows;
    }
  }

  lemma InsertKeepsLedger(cfg: StoreConfig, scope: Scope, tx: Tx, e: Event)
    requires TxInv(cfg, scope, tx)
    requires e.body.scope == scope
    ensures Insert(scope, tx, e).losses == Ledger(tx.rows + [e])
    ensures Insert(scope, tx, e).highest == Highest(tx.rows + [e], scope)
  {
    LastRow(tx.rows, e);
    if e.sequence > tx.highest + 1 {
      LossInsertNeverIgnored(cfg, scope, tx, e);
    }
  }

  lemma InsertKeepsTxInv(cfg: StoreConfig, scope: Scope, tx: Tx, e: Event)
    requires TxInv(cfg, scope, tx)
    requires ValidateEvent(cfg, scope, e).None? && cfg.fits(e)
    requires FindById(tx.rows, e.id).None? && !HasSequence(tx.rows, scope, e.sequence)
    ensures TxInv(cfg, scope, Insert(scope, tx, e))
  {
    InsertKeepsDistinct(tx.rows, e);
    InsertKeepsDurable(tx.rows, e, scope, tx.durable);
    InsertKeepsLedger(cfg, scope, tx, e);
  }

  lemma ApplyEventKeepsTxInv(cfg: StoreConfig, scope: Scope, tx: Tx, e: Event)
    requires TxInv(cfg, scope, tx)
    requires ValidateEvent(cfg, scope, e).None?
    requires ApplyEvent(cfg, scope, tx, e).Success?
    ensures var next := ApplyEvent(cfg, scope, tx, e).value;
      && TxInv(cfg, scope, next)
      && tx.rows <= next.rows && e in next.rows
      && (next.rows == tx.rows || next.rows == tx.rows + [e])
      && tx.durable <= next.durable
      && next.accepted + next.duplicates == tx.accepted + tx.duplicates + 1
      && |next.rows| - |tx.rows| == next.accepted - tx.accepted
  {
    if FindById(tx.rows, e.id).None? {
      InsertKeepsTxInv(cfg, scope, tx, e);
    }
  }

  /** A batch that applies keeps the invariant, only appends rows of its scope, and accounts for every event. */
  lemma {:induction false} ApplyBatchKeepsTxInv(cfg: StoreConfig, scope: Scope, tx: Tx, batch: seq<Event>)
    requires TxInv(cfg, scope, tx)
    requires forall e | e in batch :: ValidateEvent(cfg, scope, e).None?
    requires ApplyBatch(cfg, scope, tx, batch).Success?
    ensures var last := ApplyBatch(cfg, scope, tx, batch).value;
      && TxInv(cfg, scope, last)
      && tx.rows <= last.rows
      && (forall e | e in batch :: e in last.rows)
      && (forall x | x in last.rows :: x in tx.rows || x in batch)
      && tx.durable <= last.durable
      && last.accepted + last.duplicates == tx.accepted + tx.duplicates + |batch|
      && |last.rows| - |tx.rows| == last.accepted - tx.accepted
    decreases |batch|
  {
    hide TxInv, ApplyEvent, ValidateEvent;
    if batch != [] {
      ApplyEventKeepsTxInv(cfg, scope, tx, batch[0]);
      var next := ApplyEvent(cfg, scope, tx, batch[0]).value;
      ApplyBatchKeepsTxInv(cfg, scope, next, batch[1..]);
      var last := ApplyBatch(cfg, scope, tx, batch).value;
      assert last == ApplyBatch(cfg, scope, next, batch[1..]).value;
      forall e | e in batch ensures e in last.rows {
        if e != batch[0] {
          assert e in batch[1..];
        }
      }
    }
  }

  /** Rows of other scopes do not touch a scope's durable prefix. */
  lemma OtherScopeKeepsDurable(rows: seq<Event>, rows': seq<Event>, scope: Scope, n: nat)
    requires rows <= rows'
    requires forall x | x in rows' && x !in rows :: x.body.scope != scope
    requires IsDurable(rows, scope, n)
    ensures IsDurable(rows', scope, n)
  {
    forall k | HasSequence(rows, scope, k) ensures HasSequence(rows', scope, k) {
      var x :| x in rows && x.body.scope == scope && x.sequence == k;
      assert x in rows';
    }
  }

  /** The largest stored prefix is unique, so a durable mark is determined by the rows. */
  lemma DurableIsUnique(rows: seq<Event>, scope: Scope, m: nat, n: nat)
    requires IsDurable(rows, scope, m)
    requires forall k | 1 <= k <= n :: HasSequence(rows, scope, k)
    ensures n <= m
  {
  }

  lemma BeginTxInv(cfg: StoreConfig, s: StoreState, scope: Scope)
    requires StoreInv(cfg, s)
    ensures TxInv(cfg, scope, Begin(s, scope))
  {
  }

  /** Committing a transaction that only appended rows of its scope keeps the store invariant. */
  lemma CommitKeepsInv(cfg: StoreConfig, s: StoreState, scope: Scope, tx: Tx)
    requires StoreInv(cfg, s) && TxInv(cfg, scope, tx)
    requires s.rows <= tx.rows && MarkOf(s.marks, scope) <= tx.durable
    requires forall x | x in tx.rows && x !in s.rows :: x.body.scope == scope
    ensures StoreInv(cfg, Commit(s, scope, tx))
    ensures IsDurable(tx.rows, scope, tx.durable)
  {
    hide DistinctRows, ValidRows, Ledger, IsDurable;
    var s' := Commit(s, scope, tx);
    forall other ensures IsDurable(s'.rows, other, MarkOf(s'.marks, other)) {
      if other != scope {
        OtherScopeKeepsDurable(s.rows, s'.rows, other, MarkOf(s.marks, other));
      }
    }
  }

  /**
   * A successful ingest keeps the store invariant: the acknowledged sequence is the largest stored
   * prefix of its scope and never falls, other scopes' marks stay, rows are only appended, every
   * event of the batch is now stored, and accepted plus duplicates is the batch size.
   */
  lemma IngestKeepsInv(cfg: StoreConfig, s: StoreState, scope: Scope, batch: seq<Event>)
    requires StoreInv(cfg, s)
    requires IngestBatch(cfg, s, scope, batch).Success?
    ensures var (s', ack) := IngestBatch(cfg, s, scope, batch).value;
      && StoreInv(cfg, s')
      && s.rows <= s'.rows
      && (forall e | e in batch :: e in s'.rows)
      && (forall x | x in s'.rows :: x in s.rows || x in batch)
      && ack.durableThrough == MarkOf(s'.marks, scope)
      && IsDurable(s'.rows, scope, ack.durableThrough)
      && MarkOf(s.marks, scope) <= ack.durableThrough
      && (forall other | other != scope :: MarkOf(s'.marks, other) == MarkOf(s.marks, other))
      && ack.accepted + ack.duplicates == |batch|
      && |s'.rows| == |s.rows| + ack.accepted
  {
    assert forall e | e in batch :: e.body.scope == scope;
    hide StoreInv, TxInv, IsDurable, ApplyBatch, ValidateEvent;
    var tx0 := Begin(s, scope);
    BeginTxInv(cfg, s, scope);
    ApplyBatchKeepsTxInv(cfg, scope, tx0, batch);
    CommitKeepsInv(cfg, s, scope, ApplyBatch(cfg, scope, tx0, batch).value);
  }

  /** What a delivery needs from an accepted batch. */
  lemma IngestEffect(cfg: StoreConfig, s: StoreState, scope: Scope, batch: seq<Event>)
    requires StoreInv(cfg, s)
    requires IngestBatch(cfg, s, scope, batch).Success?
    ensures var (s', ack) := IngestBatch(cfg, s, scope, batch).value;
      && (forall x :: x in s'.rows <==> x in s.rows || x in batch)
      && IsDurable(s'.rows, scope, ack.durableThrough)
  {
    hide StoreInv, IngestBatch, IsDurable;
    IngestKeepsInv(cfg, s, scope, batch);
    var s' := IngestBatch(cfg, s, scope, batch).value.0;
    assert forall x | x in s.rows :: x in s'.rows;
  }

  function GapRecords(scope: Scope, gaps: seq<SequenceGap>): seq<LossRecord> {
    seq(|gaps|, i requires 0 <= i < |gaps| => LossRecord(scope, gaps[i].first, gaps[i].last))
  }

  lemma EventReportsItsLoss(cfg: StoreConfig, scope: Scope, base: seq<LossRecord>, tx: Tx, e: Event)
    requires TxInv(cfg, scope, tx)
    requires tx.losses == base + GapRecords(scope, tx.gaps)
    requires ApplyEvent(cfg, scope, tx, e).Success?
    ensures var next := ApplyEvent(cfg, scope, tx, e).value;
      next.losses == base + GapRecords(scope, next.gaps)
  {
    hide TxInv, Advance, ValidateEvent, HasSequence;
    if e.sequence > tx.highest + 1 {
      LossInsertNeverIgnored(cfg, scope, tx, e);
      var gap := SequenceGap(scope.collector, tx.highest + 1, e.sequence - 1);
      assert GapRecords(scope, tx.gaps + [gap]) ==
        GapRecords(scope, tx.gaps) + [LossRecord(scope, gap.first, gap.last)];
    }
  }

  lemma {:induction false} BatchReportsItsLosses(
    cfg: StoreConfig, scope: Scope, base: seq<LossRecord>, tx: Tx, batch: seq<Event>)
    requires TxInv(cfg, scope, tx)
    requires tx.losses == base + GapRecords(scope, tx.gaps)
    requires forall e | e in batch :: ValidateEvent(cfg, scope, e).None?
    requires ApplyBatch(cfg, scope, tx, batch).Success?
    ensures var last := ApplyBatch(cfg, scope, tx, batch).value;
      last.losses == base + GapRecords(scope, last.gaps)
    decreases |batch|
  {
    hide TxInv, ApplyEvent, ValidateEvent, GapRecords;
    if batch != [] {
      var e := batch[0];
      ApplyEventKeepsTxInv(cfg, scope, tx, e);
      var next := ApplyEvent(cfg, scope, tx, e).value;
      EventReportsItsLoss(cfg, scope, base, tx, e);
      BatchReportsItsLosses(cfg, scope, base, next, batch[1..]);
    }
  }

  ghost predicate GapsOf(collector: string, gaps: seq<SequenceGap>) {
    forall g | g in gaps :: g.collector == collector
  }

  lemma {:induction false} BatchNamesItsCollector(cfg: StoreConfig, scope: Scope, tx: Tx, batch: seq<Event>)
    requires GapsOf(scope.collector, tx.gaps) && ApplyBatch(cfg, scope, tx, batch).Success?
    ensures GapsOf(scope.collector, ApplyBatch(cfg, scope, tx, batch).value.gaps)
    decreases |batch|
  {
    hide Advance, HasSequence, FindById, ValidateEvent, InsertLoss;
    if batch != [] {
      BatchNamesItsCollector(cfg, scope, ApplyEvent(cfg, scope, tx, batch[0]).value, batch[1..]);
    }
  }

  /** The gaps in an acknowledgement are exactly the loss records the batch added. */
  lemma AckReportsNewLosses(cfg: StoreConfig, s: StoreState, scope: Scope, batch: seq<Event>)
    requires StoreInv(cfg, s)
    requires IngestBatch(cfg, s, scope, batch).Success?
    ensures var (s', ack) := IngestBatch(cfg, s, scope, batch).value;
      s'.losses == s.losses + GapRecords(scope, ack.gaps) && GapsOf(scope.collector, ack.gaps)
  {
    hide TxInv, ApplyBatch, ValidateEvent;
    BeginTxInv(cfg, s, scope);
    BatchReportsItsLosses(cfg, scope, s.losses, Begin(s, scope), batch);
    BatchNamesItsCollector(cfg, scope, Begin(s, scope), batch);
  }

  // ---------- re-sending ----------

  lemma StoredEventIsFound(rows: seq<Event>, e: Event)
    requires DistinctRows(rows)
    requires e in rows
    ensures FindById(rows, e.id) == Some(e)
  {
    var x := FindById(rows, e.id).value;
    var i :| 0 <= i < |rows| && rows[i] == e;
    var j :| 0 <= j < |rows| && rows[j] == x;
  }

  lemma {:induction false} StoredBatchOnlyCounts(cfg: StoreConfig, scope: Scope, tx: Tx, batch: seq<Event>)
    requires DistinctRows(tx.rows)
    requires forall e | e in batch :: ValidateEvent(cfg, scope, e).None? && e in tx.rows
    ensures ApplyBatch(cfg, scope, tx, batch) == Success(tx.(duplicates := tx.duplicates + |batch|))
    decreases |batch|
  {
    hide DistinctRows, ValidateEvent, FindById;
    if batch != [] {
      StoredEventIsFound(tx.rows, batch[0]);
      StoredBatchOnlyCounts(cfg, scope, tx.(duplicates := tx.duplicates + 1), batch[1..]);
    }
  }

  lemma StoredScopeHasMark(cfg: StoreConfig, s: StoreState, e: Event)
    requires StoreInv(cfg, s) && e in s.rows
    ensures s.marks[e.body.scope := MarkOf(s.marks, e.body.scope)] == s.marks
  {
    hide DistinctRows, ValidRows, Ledger, IsDurable;
  }

  lemma StoredEventsAreValid(cfg: StoreConfig, s: StoreState, scope: Scope, batch: seq<Event>)
    requires StoreInv(cfg, s)
    requires forall e | e in batch :: e in s.rows && e.body.scope == scope
    ensures DistinctRows(s.rows) && forall e | e in batch :: ValidateEvent(cfg, scope, e).None?
  {
  }

  /**
   * Re-sending a batch whose events are all stored changes no table, reports only duplicates and no
   * gap, and returns the current durable prefix.
   */
  lemma ResendIsNoOp(cfg: StoreConfig, s: StoreState, scope: Scope, batch: seq<Event>)
    requires StoreInv(cfg, s)
    requires 1 <= |batch| <= MAX_BATCH_EVENTS
    requires forall e | e in batch :: e in s.rows && e.body.scope == scope
    ensures IngestBatch(cfg, s, scope, batch) == Success((s, IngestAck(0, |batch|, MarkOf(s.marks, scope), [])))
  {
    hide StoreInv, ApplyBatch, DistinctRows, ValidateEvent, Highest, MarkOf;
    StoredEventsAreValid(cfg, s, scope, batch);
    StoredScopeHasMark(cfg, s, batch[0]);
    StoredBatchOnlyCounts(cfg, scope, Begin(s, scope), batch);
  }

  // ---------- exactly when a batch is accepted ----------

  /** No event of the batch rebinds an identifier or a sequence, stored or within the batch. */
  ghost predicate Compatible(cfg: StoreConfig, rows: seq<Event>, batch: seq<Event>) {
    && (forall x, e | x in rows && e in batch :: Agree(x, e))
    && (forall e, f | e in batch && f in batch :: Agree(e, f))
    && (forall e | e in batch :: e in rows || cfg.fits(e))
  }

  lemma ApplyEventSucceedsIff(cfg: StoreConfig, scope: Scope, tx: Tx, e: Event)
    requires TxInv(cfg, scope, tx)
    requires ValidateEvent(cfg, scope, e).None?
    ensures ApplyEvent(cfg, scope, tx, e).Success? <==>
      (forall x | x in tx.rows :: Agree(x, e)) && (e in tx.rows || cfg.fits(e))
  {
    if e in tx.rows {
      StoredEventIsFound(tx.rows, e);
      forall x | x in tx.rows ensures Agree(x, e) {
        var i :| 0 <= i < |tx.rows| && tx.rows[i] == e;
        var j :| 0 <= j < |tx.rows| && tx.rows[j] == x;
      }
    }
  }

  lemma CompatibleAfterFirst(cfg: StoreConfig, rows: seq<Event>, e: Event, rest: seq<Event>, rows': seq<Event>)
    requires e in rows'
    requires rows' == rows || rows' == rows + [e]
    requires forall x | x in rows :: Agree(x, e)
    requires e in rows || cfg.fits(e)
    ensures Compatible(cfg, rows, [e] + rest) <==> Compatible(cfg, rows', rest)
  {
    var batch := [e] + rest;
    assert forall x :: x in rows' <==> x in rows || x == e;
    assert forall x :: x in batch <==> x in rest || x == e;
  }

  lemma {:induction false} ApplyBatchSucceedsIff(cfg: StoreConfig, scope: Scope, tx: Tx, batch: seq<Event>)
    requires TxInv(cfg, scope, tx)
    requires forall e | e in batch :: ValidateEvent(cfg, scope, e).None?
    ensures ApplyBatch(cfg, scope, tx, batch).Success? <==> Compatible(cfg, tx.rows, batch)
    decreases |batch|
  {
    if batch != [] {
      var e, rest := batch[0], batch[1..];
      assert batch == [e] + rest;
      ApplyEventSucceedsIff(cfg, scope, tx, e);
      if ApplyEvent(cfg, scope, tx, e).Success? {
        ApplyEventKeepsTxInv(cfg, scope, tx, e);
        var next := ApplyEvent(cfg, scope, tx, e).value;
        ApplyBatchSucceedsIff(cfg, scope, next, rest);
        CompatibleAfterFirst(cfg, tx.rows, e, rest, next.rows);
      } else {
        assert e in batch;
      }
    }
  }

  /** Ingest accepts a batch exactly when it has 1..1000 valid events and rebinds nothing. */
  lemma IngestSucceedsIff(cfg: StoreConfig, s: StoreState, scope: Scope, batch: seq<Event>)
    requires StoreInv(cfg, s)
    ensures IngestBatch(cfg, s, scope, batch).Success? <==>
      && 1 <= |batch| <= MAX_BATCH_EVENTS
      && (forall e | e in batch :: ValidateEvent(cfg, scope, e).None?)
      && Compatible(cfg, s.rows, batch)
  {
    hide StoreInv, TxInv, ApplyBatch, ValidateEvent, Compatible;
    if forall e | e in batch :: ValidateEvent(cfg, scope, e).None? {
      BeginTxInv(cfg, s, scope);
      ApplyBatchSucceedsIff(cfg, scope, Begin(s, scope), batch);
    }
  }

  // ---------- which events and batches are refused, check by check ----------

  /** The checks of an event before its scope is looked at. */
  ghost predicate HeadAdmissible(cfg: StoreConfig, e: Event) {
    && e.schemaVersion == "activity.event/v1"
    && 1 <= e.sequence <= 0x7FFF_FFFF_FFFF_FFFF
    && cfg.headOk(e)
  }

  /** Everything the metadata endpoint asks of an event sent under a scope. */
  ghost predicate Admissible(cfg: StoreConfig, scope: Scope, e: Event) {
    HeadAdmissible(cfg, e) && e.body.scope == scope && cfg.tailOk(e)
  }

  /** An event passes exactly when it is admissible; a foreign scope is named only if the head checks pass. */
  lemma EventIsRefusedIff(cfg: StoreConfig, scope: Scope, e: Event)
    ensures ValidateEvent(cfg, scope, e) == None <==> Admissible(cfg, scope, e)
    ensures ValidateEvent(cfg, scope, e) == Some(ScopeMismatch) <==> HeadAdmissible(cfg, e) && e.body.scope != scope
    ensures ValidateEvent(cfg, scope, e) == Some(Invalid) <==>
      !HeadAdmissible(cfg, e) || (e.body.scope == scope && !cfg.tailOk(e))
  {
  }

  ghost predicate AllAdmissible(cfg: StoreConfig, scope: Scope, batch: seq<Event>) {
    forall e | e in batch :: Admissible(cfg, scope, e)
  }

  /**
   * Ingest accepts a batch if and only if it has 1..1000 events, every one of them is admissible under the
   * scope, and none rebinds an identifier or a sequence or exceeds the envelope limit.
   */
  lemma BatchIsAcceptedIff(cfg: StoreConfig, s: StoreState, scope: Scope, batch: seq<Event>)
    requires StoreInv(cfg, s)
    ensures IngestBatch(cfg, s, scope, batch).Success? <==>
      1 <= |batch| <= 1000 && AllAdmissible(cfg, scope, batch) && Compatible(cfg, s.rows, batch)
  {
    hide StoreInv, IngestBatch, Compatible, ValidateEvent, Admissible;
    IngestSucceedsIff(cfg, s, scope, batch);
    forall e | e in batch ensures ValidateEvent(cfg, scope, e).None? <==> Admissible(cfg, scope, e) {
      EventIsRefusedIff(cfg, scope, e);
    }
  }

  /** No reachable store holds a row that one of the checks refuses. */
  lemma StoredRowsAreAdmissible(cfg: StoreConfig, calls: seq<IngestCall>, x: Event)
    requires x in ServeAll(cfg, EMPTY_STORE, calls).rows
    ensures Admissible(cfg, x.body.scope, x) && cfg.fits(x)
  {
    EmptyStoreInv(cfg);
    ReachableStoreInv(cfg, EMPTY_STORE, calls);
    hide ServeAll;
    EventIsRefusedIff(cfg, x.body.scope, x);
  }

  /** `i` is the first event of the batch that is not admissible. */
  ghost predicate FirstInadmissible(cfg: StoreConfig, scope: Scope, batch: seq<Event>, i: nat) {
    i < |batch| && !Admissible(cfg, scope, batch[i]) && AllAdmissible(cfg, scope, batch[..i])
  }

  /** The error of a batch is that of its first inadmissible event, and there is one unless all are admissible. */
  lemma {:induction false} FirstBadEventDecides(cfg: StoreConfig, scope: Scope, batch: seq<Event>) returns (i: nat)
    requires !AllAdmissible(cfg, scope, batch)
    ensures FirstInadmissible(cfg, scope, batch, i)
    ensures ValidateBatch(cfg, scope, batch) == ValidateEvent(cfg, scope, batch[i]) && ValidateBatch(cfg, scope, batch).Some?
  {
    hide ValidateEvent, Admissible;
    EventIsRefusedIff(cfg, scope, batch[0]);
    if !Admissible(cfg, scope, batch[0]) {
      i := 0;
    } else {
      assert batch == [batch[0]] + batch[1..];
      var k := FirstBadEventDecides(cfg, scope, batch[1..]);
      i := k + 1;
      assert batch[..i] == [batch[0]] + batch[1..][..k];
    }
  }

  lemma {:induction false} FirstInadmissibleDecides(cfg: StoreConfig, scope: Scope, batch: seq<Event>, i: nat)
    requires FirstInadmissible(cfg, scope, batch, i)
    ensures ValidateBatch(cfg, scope, batch) == ValidateEvent(cfg, scope, batch[i])
    decreases |batch|
  {
    hide ValidateEvent, Admissible;
    EventIsRefusedIff(cfg, scope, batch[0]);
    if i > 0 {
      assert batch[..i] == [batch[0]] + batch[1..][..i - 1];
      FirstInadmissibleDecides(cfg, scope, batch[1..], i - 1);
    }
  }

  lemma {:induction false} TransactionNeverNamesScope(cfg: StoreConfig, scope: Scope, tx: Tx, batch: seq<Event>)
    ensures ApplyBatch(cfg, scope, tx, batch) != Failure(ScopeMismatch)
    decreases |batch|
  {
    if batch != [] && ApplyEvent(cfg, scope, tx, batch[0]).Success? {
      TransactionNeverNamesScope(cfg, scope, ApplyEvent(cfg, scope, tx, batch[0]).value, batch[1..]);
    }
  }

  /** A batch is refused for its scope exactly when its first inadmissible event passes the head checks under another scope. */
  lemma ScopeIsNamedIff(cfg: StoreConfig, s: StoreState, scope: Scope, batch: seq<Event>)
    ensures IngestBatch(cfg, s, scope, batch) == Failure(ScopeMismatch) <==>
      && 1 <= |batch| <= 1000
      && exists i: nat :: FirstInadmissible(cfg, scope, batch, i) && HeadAdmissible(cfg, batch[i]) && batch[i].body.scope != scope
  {
    TransactionNeverNamesScope(cfg, scope, Begin(s, scope), batch);
    forall i: nat | FirstInadmissible(cfg, scope, batch, i)
      ensures ValidateBatch(cfg, scope, batch) == Some(ScopeMismatch) <==> HeadAdmissible(cfg, batch[i]) && batch[i].body.scope != scope
    {
      FirstInadmissibleDecides(cfg, scope, batch, i);
      EventIsRefusedIff(cfg, scope, batch[i]);
    }
    if ValidateBatch(cfg, scope, batch).Some? {
      SomeEventIsInadmissible(cfg, scope, batch);
      var i := FirstBadEventDecides(cfg, scope, batch);
      assert FirstInadmissible(cfg, scope, batch, i);
    }
    hide FirstInadmissible, HeadAdmissible, ApplyBatch, ValidateBatch;
  }

  lemma SomeEventIsInadmissible(cfg: StoreConfig, scope: Scope, batch: seq<Event>)
    requires ValidateBatch(cfg, scope, batch).Some?
    ensures !AllAdmissible(cfg, scope, batch)
  {
    hide ValidateEvent, Admissible;
    forall e | e in batch ensures ValidateEvent(cfg, scope, e).None? <==> Admissible(cfg, scope, e) {
      EventIsRefusedIff(cfg, scope, e);
    }
  }

  /** Inside the transaction: why an admissible event is refused, from the rows alone. */
  lemma EventIsRebindingIff(cfg: StoreConfig, scope: Scope, tx: Tx, e: Event)
    requires TxInv(cfg, scope, tx) && Admissible(cfg, scope, e)
    ensures ApplyEvent(cfg, scope, tx, e) == Failure(Corrupt) <==>
      exists x | x in tx.rows :: x.id == e.id && x.body.scope != scope
    ensures ApplyEvent(cfg, scope, tx, e).Failure? <==>
      || (exists x | x in tx.rows :: x != e && (x.id == e.id || (x.body.scope == scope && x.sequence == e.sequence)))
      || (e !in tx.rows && !cfg.fits(e))
    ensures ApplyEvent(cfg, scope, tx, e) != Failure(ScopeMismatch)
  {
    EventIsRefusedIff(cfg, scope, e);
    ApplyEventSucceedsIff(cfg, scope, tx, e);
    StoredTwinIsFound(cfg, scope, tx, e);
  }

  /** The row found under an identifier is the only one, and fails validation exactly when its scope is another. */
  lemma StoredTwinIsFound(cfg: StoreConfig, scope: Scope, tx: Tx, e: Event)
    requires TxInv(cfg, scope, tx)
    ensures forall x | x in tx.rows && x.id == e.id :: FindById(tx.rows, e.id) == Some(x)
    ensures forall x | x in tx.rows :: ValidateEvent(cfg, scope, x).Some? <==> x.body.scope != scope
  {
    forall x | x in tx.rows && x.id == e.id ensures FindById(tx.rows, e.id) == Some(x) {
      StoredEventIsFound(tx.rows, x);
    }
  }

  /** The transaction fails with the error of the first event that cannot be applied, after those before it were. */
  lemma {:induction false} FirstRefusalDecides(cfg: StoreConfig, scope: Scope, tx: Tx, batch: seq<Event>) returns (i: nat)
    requires ApplyBatch(cfg, scope, tx, batch).Failure?
    ensures i < |batch| && ApplyBatch(cfg, scope, tx, batch[..i]).Success?
    ensures ApplyEvent(cfg, scope, ApplyBatch(cfg, scope, tx, batch[..i]).value, batch[i]) ==
      Failure(ApplyBatch(cfg, scope, tx, batch).error)
    decreases |batch|
  {
    hide ApplyEvent;
    if ApplyEvent(cfg, scope, tx, batch[0]).Failure? {
      i := 0;
      assert batch[..0] == [];
    } else {
      var next := ApplyEvent(cfg, scope, tx, batch[0]).value;
      var k := FirstRefusalDecides(cfg, scope, next, batch[1..]);
      i := k + 1;
      assert batch[..i][0] == batch[0] && batch[..i][1..] == batch[1..][..k];
    }
  }

  /** The highest sequence of a scope is one that is stored. */
  lemma {:induction false} HighestIsStored(rows: seq<Event>, scope: Scope)
    ensures Highest(rows, scope) > 0 ==> HasSequence(rows, scope, Highest(rows, scope))
  {
    if rows != [] {
      var before, last := rows[..|rows| - 1], rows[|rows| - 1];
      assert rows == before + [last];
      HighestIsStored(before, scope);
      AppendedSequence(before, last, scope, Highest(rows, scope));
    }
  }

  // ---------- runs ----------

  datatype IngestCall = IngestCall(scope: Scope, batch: seq<Event>)

  /** A rejected call leaves the store as it was. */
  function Serve(cfg: StoreConfig, s: StoreState, call: IngestCall): StoreState {
    match IngestBatch(cfg, s, call.scope, call.batch)
    case Success(done) => done.0
    case Failure(_) => s
  }

  function ServeAll(cfg: StoreConfig, s: StoreState, calls: seq<IngestCall>): StoreState
    decreases |calls|
  {
    if calls == [] then s else ServeAll(cfg, Serve(cfg, s, calls[0]), calls[1..])
  }

  /** Every store reached by ingest calls, accepted or rejected, satisfies the invariant and only grows. */
  lemma {:induction false} ReachableStoreInv(cfg: StoreConfig, s: StoreState, calls: seq<IngestCall>)
    requires StoreInv(cfg, s)
    ensures var last := ServeAll(cfg, s, calls);
      && StoreInv(cfg, last)
      && s.rows <= last.rows
      && forall scope :: MarkOf(s.marks, scope) <= MarkOf(last.marks, scope)
    decreases |calls|
  {
    if calls != [] {
      var next := Serve(cfg, s, calls[0]);
      if IngestBatch(cfg, s, calls[0].scope, calls[0].batch).Success? {
        IngestKeepsInv(cfg, s, calls[0].scope, calls[0].batch);
      }
      ReachableStoreInv(cfg, next, calls[1..]);
    }
  }

  lemma EmptyStoreInv(cfg: StoreConfig)
    ensures StoreInv(cfg, EMPTY_STORE)
  {
  }

  /**
   * An accepted batch stays accepted for good: in any store reached from the empty one, after any later
   * calls, sending it again changes nothing and reports the whole batch as duplicates.
   */
  lemma AcceptedBatchCanBeResent(cfg: StoreConfig, before: seq<IngestCall>, call: IngestCall, later: seq<IngestCall>)
    requires IngestBatch(cfg, ServeAll(cfg, EMPTY_STORE, before), call.scope, call.batch).Success?
    ensures var s := ServeAll(cfg, Serve(cfg, ServeAll(cfg, EMPTY_STORE, before), call), later);
      && IngestBatch(cfg, s, call.scope, call.batch) ==
           Success((s, IngestAck(0, |call.batch|, MarkOf(s.marks, call.scope), [])))
      && IsDurable(s.rows, call.scope, MarkOf(s.marks, call.scope))
  {
    hide StoreInv, ServeAll, IngestBatch, IsDurable, ValidateEvent, MarkOf;
    var s0 := ServeAll(cfg, EMPTY_STORE, before);
    EmptyStoreInv(cfg);
    ReachableStoreInv(cfg, EMPTY_STORE, before);
    AcceptedBatchIsWellFormed(cfg, s0, call.scope, call.batch);
    IngestKeepsInv(cfg, s0, call.scope, call.batch);
    var s1 := Serve(cfg, s0, call);
    ReachableStoreInv(cfg, s1, later);
    var s := ServeAll(cfg, s1, later);
    assert forall x | x in s1.rows :: x in s.rows;
    ResendIsNoOp(cfg, s, call.scope, call.batch);
    IngestKeepsInv(cfg, s, call.scope, call.batch);
  }

  lemma AcceptedBatchIsWellFormed(cfg: StoreConfig, s: StoreState, scope: Scope, batch: seq<Event>)
    requires IngestBatch(cfg, s, scope, batch).Success?
    ensures 1 <= |batch| <= MAX_BATCH_EVENTS && forall e | e in batch :: e.body.scope == scope
  {
    assert forall e | e in batch :: ValidateEvent(cfg, scope, e).None?;
  }

  // ---------- the store object ----------

  class ActivityStore {
    const cfg: StoreConfig
    var rows: seq<Event>
    var marks: map<Scope, nat>
    var losses: seq<LossRecord>

    constructor (cfg: StoreConfig)
      ensures this.cfg == cfg && State() == EMPTY_STORE && StoreInv(cfg, State())
    {
      this.cfg := cfg;
      rows, marks, losses := [], map[], [];
    }

    ghost function State(): StoreState reads this {
      StoreState(rows, marks, losses)
    }

    /** Moves the durable mark across stored successors, one look-up at a time. */
    static method AdvanceDurable(rows: seq<Event>, scope: Scope, durable: nat) returns (r: nat)
      ensures r == Advance(rows, scope, durable)
    {
      HighestBounds(rows, scope);
      r := durable;
      while HasSequence(rows, scope, r + 1)
        invariant Advance(rows, scope, r) == Advance(rows, scope, durable)
        decreases Highest(rows, scope) - r
      {
        r := r + 1;
      }
    }

    /** Stores one new event: its loss range, the row, and the advanced durable mark. */
    static method InsertEvent(tx: Tx, scope: Scope, e: Event) returns (r: Tx)
      ensures r == Insert(scope, tx, e)
    {
      var losses, gaps := tx.losses, tx.gaps;
      if e.sequence > tx.highest + 1 {
        losses := InsertLoss(losses, LossRecord(scope, tx.highest + 1, e.sequence - 1));
        gaps := gaps + [SequenceGap(scope.collector, tx.highest + 1, e.sequence - 1)];
      }
      var rows := tx.rows + [e];
      var highest: nat := if e.sequence > tx.highest then e.sequence else tx.highest;
      var durable := AdvanceDurable(rows, scope, tx.durable);
      r := Tx(rows, losses, durable, highest, tx.accepted + 1, tx.duplicates, gaps);
    }

    /** The event loop of an ingest transaction, on the transaction's own copies of the tables. */
    static method RunTransaction(cfg: StoreConfig, begun: Tx, scope: Scope, batch: seq<Event>)
      returns (r: Result<Tx, ActivityError>)
      ensures r == ApplyBatch(cfg, scope, begun, batch)
    {
      hide FindById, HasSequence, ValidateEvent, Insert;
      var tx := begun;
      var i := 0;
      while i < |batch|
        invariant 0 <= i <= |batch|
        invariant ApplyBatch(cfg, scope, begun, batch) == ApplyBatch(cfg, scope, tx, batch[i..])
      {
        var e := batch[i];
        assert batch[i..][0] == e && batch[i..][1..] == batch[i + 1..];
        i := i + 1;
        var existing := FindById(tx.rows, e.id);
        if existing.Some? {
          if ValidateEvent(cfg, scope, existing.value).Some? {
            return Failure(Corrupt);
          }
          if existing.value != e {
            return Failure(Invalid);
          }
          tx := tx.(duplicates := tx.duplicates + 1);
          continue;
        }
        if HasSequence(tx.rows, scope, e.sequence) {
          return Failure(Invalid);
        }
        if !cfg.fits(e) {
          return Failure(Invalid);
        }
        tx := InsertEvent(tx, scope, e);
      }
      r := Success(tx);
    }

    /** The fields change only at the commit, so a failed batch leaves every table as it was. */
    method Ingest(scope: Scope, batch: seq<Event>) returns (r: Result<IngestAck, ActivityError>)
      requires StoreInv(cfg, State())
      modifies this
      ensures StoreInv(cfg, State())
      ensures r.Failure? ==> State() == old(State()) && IngestBatch(cfg, old(State()), scope, batch) == Failure(r.error)
      ensures r.Success? ==> IngestBatch(cfg, old(State()), scope, batch) == Success((State(), r.value))
    {
      if batch == [] || |batch| > MAX_BATCH_EVENTS {
        return Failure(Invalid);
      }
      var invalid := ValidateBatch(cfg, scope, batch);
      if invalid.Some? {
        return Failure(invalid.value);
      }
      var begun := Tx(rows, losses, MarkOf(marks, scope), Highest(rows, scope), 0, 0, []);
      var ran := RunTransaction(cfg, begun, scope, batch);
      if ran.Failure? {
        return Failure(ran.error);
      }
      var tx := ran.value;
      IngestKeepsInv(cfg, State(), scope, batch);
      var kept := MarkOf(marks, scope);
      marks := marks[scope := if kept > tx.durable then kept else tx.durable];
      rows, losses := tx.rows, tx.losses;
      r := Success(IngestAck(tx.accepted, tx.duplicates, tx.durable, tx.gaps));
    }
  }
}
