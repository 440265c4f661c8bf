/** What delivery from a spool means for the server's loss ledger: the scope's events arrive as 1, 2, 3, ... */
module DeliveryOrder {
  import opened Outcomes
  import opened ActivityEvents
  import opened ActivityDelivery
  import Spools = ActivitySpools
  import Stores = ActivityStores
  import Coverage = TimelineCoverage

  // ---------- a batch that starts at or below the next sequence leaves no gap ----------

  ghost predicate Consecutive(batch: seq<Event>) {
    forall i | 0 <= i < |batch| :: batch[i].sequence == batch[0].sequence + i
  }

  /** One event at or below highest+1 adds no loss record, and the highest sequence reaches it. */
  lemma EventLeavesNoGap(cfg: Stores.StoreConfig, scope: Scope, tx: Stores.Tx, e: Event)
    requires Stores.TxInv(cfg, scope, tx)
    requires Stores.ValidateEvent(cfg, scope, e).None? && e.sequence <= tx.highest + 1
    requires Stores.ApplyEvent(cfg, scope, tx, e).Success?
    ensures var next := Stores.ApplyEvent(cfg, scope, tx, e).value;
      next.losses == tx.losses && next.gaps == tx.gaps && e.sequence <= next.highest
  {
    hide Stores.DistinctRows, Stores.ValidRows, Stores.Ledger, Stores.IsDurable, Stores.Advance, Stores.HasSequence;
    Stores.HighestBounds(tx.rows, scope);
  }

  lemma {:induction false} BatchLeavesNoGap(cfg: Stores.StoreConfig, scope: Scope, tx: Stores.Tx, batch: seq<Event>)
    requires Stores.TxInv(cfg, scope, tx)
    requires forall e | e in batch :: Stores.ValidateEvent(cfg, scope, e).None?
    requires Consecutive(batch) && (batch != [] ==> batch[0].sequence <= tx.highest + 1)
    requires Stores.ApplyBatch(cfg, scope, tx, batch).Success?
    ensures var last := Stores.ApplyBatch(cfg, scope, tx, batch).value; last.losses == tx.losses && last.gaps == tx.gaps
    decreases |batch|
  {
    hide Stores.TxInv, Stores.ApplyEvent, Stores.ValidateEvent;
    if batch != [] {
      var e, rest := batch[0], batch[1..];
      EventLeavesNoGap(cfg, scope, tx, e);
      Stores.ApplyEventKeepsTxInv(cfg, scope, tx, e);
      assert forall i | 0 <= i < |rest| :: rest[i] == batch[i + 1];
      BatchLeavesNoGap(cfg, scope, Stores.ApplyEvent(cfg, scope, tx, e).value, rest);
    }
  }

  /** Everything below the batch is stored, and the batch is one contiguous run. */
  ghost predicate Grounded(rows: seq<Event>, scope: Scope, batch: seq<Json>) {
    && Spools.Contiguous(batch)
    && (batch != [] ==> forall k | 1 <= k < Spools.SequenceOf(batch[0]) :: Stores.HasSequence(rows, scope, k))
  }

  lemma GroundedStartsInRange(rows: seq<Event>, scope: Scope, batch: seq<Json>)
    requires Grounded(rows, scope, batch) && batch != []
    ensures Spools.SequenceOf(batch[0]) <= Stores.Highest(rows, scope) + 1
  {
    var first := Spools.SequenceOf(batch[0]);
    if first > 1 {
      assert Stores.HasSequence(rows, scope, first - 1);
      Stores.HighestBounds(rows, scope);
    }
  }

  lemma GroundedIsConsecutive(rows: seq<Event>, scope: Scope, batch: seq<Json>, events: seq<Event>)
    requires Grounded(rows, scope, batch) && DecodeAll(batch) == Some(events)
    requires forall e | e in events :: e.sequence <= U64_MAX
    ensures Consecutive(events)
    ensures batch != [] ==> events[0].sequence <= Stores.Highest(rows, scope) + 1
  {
    forall i | 0 <= i < |events| ensures events[i].sequence == Spools.SequenceOf(batch[i]) {
      assert batch[i] == Encode(events[i]) && events[i] in events;
    }
    if batch != [] {
      GroundedStartsInRange(rows, scope, batch);
    }
  }

  /** Accepting a grounded batch records no loss, in the tables or in the acknowledgement. */
  lemma GroundedBatchLeavesNoGap(cfg: Stores.StoreConfig, s: Stores.StoreState, scope: Scope, batch: seq<Json>, events: seq<Event>)
    requires Stores.StoreInv(cfg, s) && Grounded(s.rows, scope, batch) && DecodeAll(batch) == Some(events)
    requires Stores.IngestBatch(cfg, s, scope, events).Success?
    ensures var (s', ack) := Stores.IngestBatch(cfg, s, scope, events).value;
      s'.losses == s.losses && ack.gaps == []
  {
    assert forall e | e in events :: Stores.ValidateEvent(cfg, scope, e).None? && e.sequence <= I64_MAX;
    hide Stores.StoreInv, Stores.TxInv, Stores.ApplyBatch, Stores.ValidateEvent, Grounded, DecodeAll, Stores.Highest;
    Stores.BeginTxInv(cfg, s, scope);
    GroundedIsConsecutive(s.rows, scope, batch, events);
    BatchLeavesNoGap(cfg, scope, Stores.Begin(s, scope), events);
  }

  // ---------- what every run keeps ----------

  ghost predicate AllGrounded(setup: Setup, sys: System) {
    forall batch | batch in sys.sent :: Grounded(sys.store.rows, setup.scope, batch)
  }

  ghost predicate NoLossRecorded(setup: Setup, sys: System) {
    forall r | r in sys.store.losses :: r.scope != setup.scope
  }

  ghost predicate OrderInv(setup: Setup, sys: System) {
    AllGrounded(setup, sys) && NoLossRecorded(setup, sys)
  }

  lemma GroundedGrows(rows: seq<Event>, rows': seq<Event>, scope: Scope, batch: seq<Json>)
    requires Grounded(rows, scope, batch) && rows <= rows'
    ensures Grounded(rows', scope, batch)
  {
    hide Stores.HasSequence;
    PrefixMembers(rows, rows');
    if batch != [] {
      forall k | 1 <= k < Spools.SequenceOf(batch[0]) ensures Stores.HasSequence(rows', scope, k) {
        GrowingRowsKeepSequences(rows, rows', scope, k);
      }
    }
  }

  /** What an exporter sends starts at the first unacknowledged record, so everything below it is stored. */
  lemma PendingIsGrounded(setup: Setup, sys: System, limit: nat)
    requires Inv(setup, sys) && Spools.PendingRecords(sys.spool.files, limit).Success?
    ensures Grounded(sys.store.rows, setup.scope, Spools.PendingRecords(sys.spool.files, limit).value)
  {
    InvFiles(setup, sys);
    var batch := Spools.PendingRecords(sys.spool.files, limit).value;
    PendingIsPrefix(setup, sys, limit);
    var lines := sys.spool.files.lines;
    assert Spools.Contiguous(lines) && batch <= lines;
    hide Inv, Spools.FilesInv, Spools.PendingRecords, Stores.HasSequence;
    forall i | 0 <= i < |batch| ensures Spools.SequenceOf(batch[i]) == Spools.SequenceOf(batch[0]) + i {
      assert batch[i] == lines[i];
    }
    if batch != [] {
      forall k | 1 <= k < Spools.SequenceOf(batch[0]) ensures Stores.HasSequence(sys.store.rows, setup.scope, k) {
        PrunedIsStored(setup, sys, k);
      }
    }
  }

  lemma SendKeepsOrder(setup: Setup, sys: System, limit: nat)
    requires Inv(setup, sys) && OrderInv(setup, sys)
    ensures OrderInv(setup, Next(setup, sys, Send(limit)))
  {
    if Spools.PendingRecords(sys.spool.files, limit).Success? {
      PendingIsGrounded(setup, sys, limit);
      hide Inv, Grounded, Spools.PendingRecords;
    }
  }

  lemma GrowthKeepsGrounded(setup: Setup, sys: System, store: Stores.StoreState)
    requires AllGrounded(setup, sys) && sys.store.rows <= store.rows
    ensures forall batch | batch in sys.sent :: Grounded(store.rows, setup.scope, batch)
  {
    hide Grounded;
    forall batch | batch in sys.sent ensures Grounded(store.rows, setup.scope, batch) {
      GroundedGrows(sys.store.rows, store.rows, setup.scope, batch);
    }
  }

  lemma DeliverKeepsOrder(setup: Setup, sys: System, batch: seq<Json>)
    requires Inv(setup, sys) && OrderInv(setup, sys) && batch in sys.sent
    ensures OrderInv(setup, DeliverTo(setup, sys, batch))
  {
    InvFiles(setup, sys);
    hide Inv, Grounded, DecodeAll, Stores.StoreInv, Stores.IngestBatch;
    if DecodeAll(batch).Some? {
      var events := DecodeAll(batch).value;
      if Stores.IngestBatch(setup.store, sys.store, setup.scope, events).Success? {
        Stores.IngestKeepsInv(setup.store, sys.store, setup.scope, events);
        GroundedBatchLeavesNoGap(setup.store, sys.store, setup.scope, batch, events);
        GrowthKeepsGrounded(setup, sys, Stores.IngestBatch(setup.store, sys.store, setup.scope, events).value.0);
      }
    }
  }

  /** A batch adds loss records of its own scope only. */
  lemma LossesOfOneScope(cfg: Stores.StoreConfig, s: Stores.StoreState, scope: Scope, events: seq<Event>)
    requires Stores.StoreInv(cfg, s) && Stores.IngestBatch(cfg, s, scope, events).Success?
    ensures forall r | r in Stores.IngestBatch(cfg, s, scope, events).value.0.losses :: r in s.losses || r.scope == scope
  {
    hide Stores.StoreInv, Stores.IngestBatch;
    Stores.AckReportsNewLosses(cfg, s, scope, events);
    var ack := Stores.IngestBatch(cfg, s, scope, events).value.1;
    assert forall r | r in Stores.GapRecords(scope, ack.gaps) :: r.scope == scope;
  }

  lemma OtherTrafficKeepsOrder(setup: Setup, sys: System, scope: Scope, events: seq<Event>)
    requires Inv(setup, sys) && OrderInv(setup, sys) && scope != setup.scope
    ensures OrderInv(setup, Next(setup, sys, OtherTraffic(scope, events)))
  {
    InvFiles(setup, sys);
    hide Inv, Grounded, Stores.StoreInv, Stores.IngestBatch;
    if Stores.IngestBatch(setup.store, sys.store, scope, events).Success? {
      Stores.IngestKeepsInv(setup.store, sys.store, scope, events);
      LossesOfOneScope(setup.store, sys.store, scope, events);
      GrowthKeepsGrounded(setup, sys, Stores.IngestBatch(setup.store, sys.store, scope, events).value.0);
    }
  }

  lemma StepKeepsOrder(setup: Setup, sys: System, step: Step)
    requires Inv(setup, sys) && OrderInv(setup, sys)
    requires Possible(setup, sys, step)
    ensures OrderInv(setup, Next(setup, sys, step))
  {
    hide Inv, Grounded, Stores.IngestBatch, DecodeAll;
    match step
    case Send(limit) => SendKeepsOrder(setup, sys, limit);
    case Deliver(batch) => DeliverKeepsOrder(setup, sys, batch);
    case OtherTraffic(scope, events) => OtherTrafficKeepsOrder(setup, sys, scope, events);
    case _ =>
  }

  lemma {:induction false} RunKeepsOrder(setup: Setup, sys: System, steps: seq<Step>)
    requires Inv(setup, sys) && OrderInv(setup, sys)
    requires PossibleRun(setup, sys, steps) && RestartedRun(setup, sys, steps)
    ensures Inv(setup, Run(setup, sys, steps)) && OrderInv(setup, Run(setup, sys, steps))
    decreases |steps|
  {
    hide Inv, OrderInv, Next, Possible, Restarted;
    if steps != [] {
      StepKeepsInv(setup, sys, steps[0]);
      StepKeepsOrder(setup, sys, steps[0]);
      RunKeepsOrder(setup, Next(setup, sys, steps[0]), steps[1..]);
    }
  }

  lemma StartIsOrderly(setup: Setup, sys: System)
    requires Start(setup, sys)
    ensures Inv(setup, sys) && OrderInv(setup, sys)
  {
    Stores.LedgerBounds(sys.store.rows);
    forall r | r in sys.store.losses ensures r.scope != setup.scope {
      NoRowsNoHighest(sys.store.rows, setup.scope);
    }
  }

  lemma {:induction false} NoRowsNoHighest(rows: seq<Event>, scope: Scope)
    requires forall x | x in rows :: x.body.scope != scope
    ensures Stores.Highest(rows, scope) == 0
  {
    if rows != [] {
      assert rows[|rows| - 1] in rows;
      assert forall x | x in rows[..|rows| - 1] :: x in rows;
      NoRowsNoHighest(rows[..|rows| - 1], scope);
    }
  }

  /**
   * In every run of the protocol, whatever the network repeats, reorders or loses, the scope's events
   * arrive at the server strictly as 1, 2, 3, ...: no loss range is ever recorded for it, no
   * acknowledgement of its batches reports a gap, and the durable mark is the highest sequence stored.
   */
  lemma DeliveryIsInOrder(setup: Setup, sys: System, steps: seq<Step>, batch: seq<Json>)
    requires Start(setup, sys)
    requires PossibleRun(setup, sys, steps) && RestartedRun(setup, sys, steps)
    ensures var last := Run(setup, sys, steps);
      && Coverage.FullyDelivered(last.store, setup.scope)
      && (forall r | r in last.store.losses :: r.scope != setup.scope)
      && (batch in last.sent && DecodeAll(batch).Some? ==>
            var reply := Stores.IngestBatch(setup.store, last.store, setup.scope, DecodeAll(batch).value);
            reply.Success? ==> reply.value.1.gaps == [])
  {
    hide Inv, Start, PossibleRun, RestartedRun, Run, Grounded, Stores.IngestBatch, DecodeAll, Coverage.FullyDelivered;
    StartIsOrderly(setup, sys);
    RunKeepsOrder(setup, sys, steps);
    var last := Run(setup, sys, steps);
    InvFiles(setup, last);
    assert last.store.losses == Stores.Ledger(last.store.rows);
    Coverage.NoLossMeansFullyDelivered(setup.store, last.store, setup.scope);
    if batch in last.sent && DecodeAll(batch).Some? {
      var events := DecodeAll(batch).value;
      if Stores.IngestBatch(setup.store, last.store, setup.scope, events).Success? {
        GroundedBatchLeavesNoGap(setup.store, last.store, setup.scope, batch, events);
      }
    }
  }
}
