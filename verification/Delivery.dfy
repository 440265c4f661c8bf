/**
 * The delivery protocol end to end: one spool, the management store, and a network that may lose,
 * duplicate and reorder batches and acknowledgements. Either side may stop and restart at any step.
 */
module ActivityDelivery {
  import opened Outcomes
  import opened ActivityEvents
  import Spools = ActivitySpools
  import Stores = ActivityStores

  /** The spool's settings, the store's settings, and the ingest scope this spool reports under. */
  datatype Setup = Setup(spool: Spools.SpoolConfig, store: Stores.StoreConfig, scope: Scope)

  /**
   * `sent` and `acks` hold everything ever put on the network. Nothing is ever taken out, so a
   * message can arrive late, repeatedly, out of order, or never.
   */
  datatype System = System(
    spool: Spools.SpoolRun,
    store: Stores.StoreState,
    sent: set<seq<Json>>,
    acks: set<nat>)

  datatype Step =
    | Append(event: Json)
    | TornAppend(event: Json)                          // the agent stops between the two writes
    | Reopen                                           // the agent restarts
    | Send(limit: nat)                                 // the exporter sends what is pending
    | Deliver(batch: seq<Json>)                        // a batch reaches the store
    | Receive(through: nat)                            // an acknowledgement reaches the agent
    | OtherTraffic(scope: Scope, events: seq<Event>)   // another collector reports to the same store

  /** A request body decodes as a whole or not at all. */
  function DecodeAll(batch: seq<Json>): (r: Option<seq<Event>>)
    ensures r.Some? <==> forall v | v in batch :: Decode(v).Some?
    ensures r.Some? ==> |r.value| == |batch| && forall i | 0 <= i < |batch| :: batch[i] == Encode(r.value[i])
  {
    if batch == [] then Some([])
    else
      match (Decode(batch[0]), DecodeAll(batch[1..]))
      case (Some(e), Some(rest)) => Some([e] + rest)
      case _ => None
  }

  function DeliverTo(setup: Setup, sys: System, batch: seq<Json>): System {
    match DecodeAll(batch)
    case None => sys
    case Some(events) =>
      match Stores.IngestBatch(setup.store, sys.store, setup.scope, events)
      case Failure(_) => sys
      case Success((store, ack)) => sys.(store := store, acks := sys.acks + {ack.durableThrough})
  }

  function Next(setup: Setup, sys: System, step: Step): System {
    match step
    case Append(e) => sys.(spool := Spools.Take(setup.spool, sys.spool, Spools.Append(e)))
    case TornAppend(e) => sys.(spool := Spools.Take(setup.spool, sys.spool, Spools.TornAppend(e)))
    case Reopen => sys.(spool := Spools.Take(setup.spool, sys.spool, Spools.Reopen))
    case Send(limit) =>
      (match Spools.PendingRecords(sys.spool.files, limit)
       case Success(batch) => sys.(sent := sys.sent + {batch})
       case Failure(_) => sys)
    case Deliver(batch) => DeliverTo(setup, sys, batch)
    case Receive(n) => sys.(spool := Spools.Take(setup.spool, sys.spool, Spools.Acknowledge(n)))
    case OtherTraffic(scope, batch) =>
      sys.(store := Stores.Serve(setup.store, sys.store, Stores.IngestCall(scope, batch)))
  }

  /** The network delivers only what was sent, and the spool owns its scope. */
  ghost predicate Possible(setup: Setup, sys: System, step: Step) {
    match step
    case Deliver(batch) => batch in sys.sent
    case Receive(n) => n in sys.acks
    case OtherTraffic(scope, _) => scope != setup.scope
    case _ => true
  }

  /** After a torn append the agent reopens its spool before an acknowledgement removes that record. */
  ghost predicate Restarted(sys: System, step: Step) {
    step.Receive? ==> Spools.Allowed(sys.spool.files, Spools.Acknowledge(step.through))
  }

  function Run(setup: Setup, sys: System, steps: seq<Step>): System
    decreases |steps|
  {
    if steps == [] then sys else Run(setup, Next(setup, sys, steps[0]), steps[1..])
  }

  ghost predicate PossibleRun(setup: Setup, sys: System, steps: seq<Step>)
    decreases |steps|
  {
    steps == [] || (Possible(setup, sys, steps[0]) && PossibleRun(setup, Next(setup, sys, steps[0]), steps[1..]))
  }

  ghost predicate RestartedRun(setup: Setup, sys: System, steps: seq<Step>)
    decreases |steps|
  {
    steps == [] || (Restarted(sys, steps[0]) && RestartedRun(setup, Next(setup, sys, steps[0]), steps[1..]))
  }

  // ---------- what every run keeps ----------

  /** The store holds the spooled value, unchanged, under the sequence it was spooled with. */
  predicate StoredAs(rows: seq<Event>, scope: Scope, v: Json) {
    match Decode(v)
    case Some(e) => e in rows && e.body.scope == scope && e.sequence == Spools.SequenceOf(v)
    case None => false
  }

  /** Nothing written is lost: it is still in the spool or it is in the store. */
  ghost predicate NothingLost(setup: Setup, sys: System) {
    forall v | v in sys.spool.written :: v in sys.spool.files.lines || StoredAs(sys.store.rows, setup.scope, v)
  }

  /** Every stored row of this scope was once written to the spool. */
  ghost predicate Authentic(scope: Scope, rows: seq<Event>, written: seq<Json>) {
    forall x | x in rows && x.body.scope == scope :: Encode(x) in written
  }

  ghost predicate SentWasWritten(sys: System) {
    forall batch, v | batch in sys.sent && v in batch :: v in sys.spool.written
  }

  ghost predicate AcksAreDurable(setup: Setup, sys: System) {
    forall n, k | n in sys.acks && 1 <= k <= n :: Stores.HasSequence(sys.store.rows, setup.scope, k)
  }

  ghost predicate Inv(setup: Setup, sys: System) {
    && Spools.SpoolInv(setup.spool, sys.spool)
    && Stores.StoreInv(setup.store, sys.store)
    && Authentic(setup.scope, sys.store.rows, sys.spool.written)
    && SentWasWritten(sys)
    && AcksAreDurable(setup, sys)
    && NothingLost(setup, sys)
  }

  lemma GrowingRowsKeepSequences(rows: seq<Event>, rows': seq<Event>, scope: Scope, k: nat)
    requires forall x | x in rows :: x in rows'
    requires Stores.HasSequence(rows, scope, k)
    ensures Stores.HasSequence(rows', scope, k)
  {
    var x :| x in rows && x.body.scope == scope && x.sequence == k;
    assert x in rows';
  }

  lemma PrefixMembers<T>(a: seq<T>, b: seq<T>)
    requires a <= b
    ensures forall x | x in a :: x in b
  {
  }

  /** The spool step of an append changes only the spool, and only by growing it. */
  lemma WriteKeeps(setup: Setup, sys: System, e: Json, torn: bool)
    requires Inv(setup, sys)
    ensures Inv(setup, sys.(spool := Spools.WriteStep(setup.spool, sys.spool, e, torn)))
  {
    Spools.WriteKeepsInv(setup.spool, sys.spool, e, torn);
    var s' := Spools.WriteStep(setup.spool, sys.spool, e, torn);
    assert forall v | v in sys.spool.written :: v in s'.written;
    assert forall v | v in s'.written :: v in sys.spool.written || v in s'.files.lines;
    assert forall v | v in sys.spool.files.lines :: v in s'.files.lines;
  }

  lemma ReopenKeeps(setup: Setup, sys: System)
    requires Inv(setup, sys)
    ensures Inv(setup, Next(setup, sys, Reopen))
  {
    hide Spools.FilesInv, Spools.BoundOnce, Stores.StoreInv;
    Spools.ReopenKeepsInv(setup.spool, sys.spool);
  }

  lemma SendKeeps(setup: Setup, sys: System, limit: nat)
    requires Inv(setup, sys)
    ensures Inv(setup, Next(setup, sys, Send(limit)))
  {
    Spools.RecordsAreLines(setup.spool, sys.spool.files);
  }

  /** A larger store with the same spool keeps the invariant if its new rows of this scope were sent. */
  lemma StoreGrowthKeeps(setup: Setup, sys: System, store: Stores.StoreState)
    requires Inv(setup, sys)
    requires Stores.StoreInv(setup.store, store)
    requires sys.store.rows <= store.rows
    requires Authentic(setup.scope, store.rows, sys.spool.written)
    ensures Inv(setup, sys.(store := store))
  {
    PrefixMembers(sys.store.rows, store.rows);
    forall n, k | n in sys.acks && 1 <= k <= n ensures Stores.HasSequence(store.rows, setup.scope, k) {
      GrowingRowsKeepSequences(sys.store.rows, store.rows, setup.scope, k);
    }
  }

  lemma DeliverKeeps(setup: Setup, sys: System, batch: seq<Json>)
    requires Inv(setup, sys)
    requires batch in sys.sent
    ensures Inv(setup, DeliverTo(setup, sys, batch))
  {
    hide Spools.SpoolInv, Stores.StoreInv, Stores.IngestBatch, Stores.HasSequence, StoredAs;
    if DecodeAll(batch).Some? {
      var events := DecodeAll(batch).value;
      if Stores.IngestBatch(setup.store, sys.store, setup.scope, events).Success? {
        Stores.IngestKeepsInv(setup.store, sys.store, setup.scope, events);
        var (store, ack) := Stores.IngestBatch(setup.store, sys.store, setup.scope, events).value;
        forall x | x in events ensures Encode(x) in sys.spool.written {
          var i :| 0 <= i < |events| && events[i] == x;
          assert batch[i] in batch;
        }
        StoreGrowthKeeps(setup, sys, store);
      }
    }
  }

  lemma OtherTrafficKeeps(setup: Setup, sys: System, scope: Scope, batch: seq<Event>)
    requires Inv(setup, sys)
    requires scope != setup.scope
    ensures Inv(setup, Next(setup, sys, OtherTraffic(scope, batch)))
  {
    hide Spools.SpoolInv, Stores.StoreInv, Stores.IsDurable, StoredAs, Stores.ApplyBatch, Stores.Commit;
    if Stores.IngestBatch(setup.store, sys.store, scope, batch).Success? {
      Stores.IngestKeepsInv(setup.store, sys.store, scope, batch);
      var store := Stores.IngestBatch(setup.store, sys.store, scope, batch).value.0;
      assert forall x | x in batch :: Stores.ValidateEvent(setup.store, scope, x).None?;
      StoreGrowthKeeps(setup, sys, store);
    }
  }

  /** A spooled value whose sequence the store holds is the value the store holds. */
  lemma StoredSequenceIsThisValue(setup: Setup, sys: System, v: Json)
    requires Spools.BoundOnce(sys.spool.written)
    requires Stores.ValidRows(setup.store, sys.store.rows)
    requires Authentic(setup.scope, sys.store.rows, sys.spool.written)
    requires v in sys.spool.written
    requires Stores.HasSequence(sys.store.rows, setup.scope, Spools.SequenceOf(v))
    ensures StoredAs(sys.store.rows, setup.scope, v)
  {
    var x :| x in sys.store.rows && x.body.scope == setup.scope && x.sequence == Spools.SequenceOf(v);
    assert Stores.ValidateEvent(setup.store, x.body.scope, x).None?;
    assert Encode(x) in sys.spool.written && Spools.SequenceOf(Encode(x)) == x.sequence;
    assert v == Encode(x);
  }

  /** Removing acknowledged records loses nothing, because every acknowledged sequence is stored. */
  lemma ReceiveLosesNothing(setup: Setup, sys: System, files: Spools.SpoolFiles, n: nat)
    requires Spools.BoundOnce(sys.spool.written)
    requires Stores.ValidRows(setup.store, sys.store.rows)
    requires Authentic(setup.scope, sys.store.rows, sys.spool.written)
    requires forall v | v in sys.spool.written :: Spools.SequenceOf(v) >= 1
    requires forall k | 1 <= k <= n :: Stores.HasSequence(sys.store.rows, setup.scope, k)
    requires NothingLost(setup, sys)
    requires forall v | v in sys.spool.files.lines && Spools.SequenceOf(v) > n :: v in files.lines
    ensures NothingLost(setup, sys.(spool := sys.spool.(files := files)))
  {
    forall v | v in sys.spool.written ensures v in files.lines || StoredAs(sys.store.rows, setup.scope, v) {
      if Spools.SequenceOf(v) <= n {
        StoredSequenceIsThisValue(setup, sys, v);
      }
    }
  }

  lemma ReceiveKeeps(setup: Setup, sys: System, n: nat)
    requires Inv(setup, sys)
    requires n in sys.acks
    requires Spools.Allowed(sys.spool.files, Spools.Acknowledge(n))
    ensures Inv(setup, Next(setup, sys, Receive(n)))
  {
    hide Spools.FilesInv, Spools.Allowed, Spools.AcknowledgeFiles, Spools.BoundOnce, Stores.ValidRows, StoredAs;
    Spools.StepKeepsInv(setup.spool, sys.spool, Spools.Acknowledge(n));
    Spools.AcknowledgeKeepsFiles(setup.spool, sys.spool.files, n);
    ReceiveLosesNothing(setup, sys, Spools.AcknowledgeFiles(sys.spool.files, n), n);
  }

  lemma StepKeepsInv(setup: Setup, sys: System, step: Step)
    requires Inv(setup, sys)
    requires Possible(setup, sys, step) && Restarted(sys, step)
    ensures Inv(setup, Next(setup, sys, step))
  {
    match step
    case Append(e) => WriteKeeps(setup, sys, e, false);
    case TornAppend(e) => WriteKeeps(setup, sys, e, true);
    case Reopen => ReopenKeeps(setup, sys);
    case Send(limit) => SendKeeps(setup, sys, limit);
    case Deliver(batch) => DeliverKeeps(setup, sys, batch);
    case Receive(n) => ReceiveKeeps(setup, sys, n);
    case OtherTraffic(scope, batch) => OtherTrafficKeeps(setup, sys, scope, batch);
  }

  lemma {:induction false} RunKeepsInv(setup: Setup, sys: System, steps: seq<Step>)
    requires Inv(setup, sys)
    requires PossibleRun(setup, sys, steps) && RestartedRun(setup, sys, steps)
    ensures Inv(setup, Run(setup, sys, steps))
    decreases |steps|
  {
    if steps != [] {
      StepKeepsInv(setup, sys, steps[0]);
      RunKeepsInv(setup, Next(setup, sys, steps[0]), steps[1..]);
    }
  }

  const EMPTY_SYSTEM := System(Spools.EMPTY_SPOOL, Stores.EMPTY_STORE, {}, {})

  /** A new spool against a store that has seen other collectors only. */
  ghost predicate Start(setup: Setup, sys: System) {
    && sys.spool == Spools.EMPTY_SPOOL
    && Stores.StoreInv(setup.store, sys.store)
    && (forall x | x in sys.store.rows :: x.body.scope != setup.scope)
    && sys.sent == {} && sys.acks == {}
  }

  /**
   * Delivery safety: in every run, whatever the network repeats, reorders or loses and wherever
   * either side restarts, each record ever written to the spool is still there or is stored
   * unchanged at the server under the same sequence; and the server holds nothing for this scope
   * that the spool did not write.
   */
  lemma DeliveryIsSafe(setup: Setup, sys: System, steps: seq<Step>)
    requires Start(setup, sys)
    requires PossibleRun(setup, sys, steps) && RestartedRun(setup, sys, steps)
    ensures var last := Run(setup, sys, steps);
      NothingLost(setup, last) && Authentic(setup.scope, last.store.rows, last.spool.written)
  {
    RunKeepsInv(setup, sys, steps);
  }

  // ---------- the restart condition is exact ----------

  lemma InvNextIsFresh(setup: Setup, sys: System)
    requires Inv(setup, sys)
    ensures Spools.NextIsFresh(sys.spool)
  {
    Spools.RecordsAreLines(setup.spool, sys.spool.files);
  }

  /** Below the sequence limit, an acknowledgement keeps the invariant exactly when no torn record is removed. */
  lemma ReceiveKeepsInvIff(setup: Setup, sys: System, n: nat)
    requires Inv(setup, sys)
    requires n in sys.acks
    requires Spools.Top(sys.spool.files) < U64_MAX
    ensures Inv(setup, Next(setup, sys, Receive(n))) <==> Restarted(sys, Receive(n))
  {
    var after := Next(setup, sys, Receive(n));
    assert Spools.SpoolInv(setup.spool, sys.spool);
    assert after.spool == Spools.Take(setup.spool, sys.spool, Spools.Acknowledge(n));
    hide Inv, Next, Spools.Take, Spools.SpoolInv, Spools.NextIsFresh, Spools.Allowed;
    Spools.AcknowledgeKeepsNextFreshIff(setup.spool, sys.spool, n);
    if Restarted(sys, Receive(n)) {
      ReceiveKeeps(setup, sys, n);
    }
    assert Inv(setup, after) ==> Spools.NextIsFresh(after.spool) by {
      if Inv(setup, after) {
        InvNextIsFresh(setup, after);
      }
    }
  }

  lemma DecodeSingle(e: Event)
    requires e.sequence <= U64_MAX
    ensures DecodeAll([Encode(e)]) == Some([e])
  {
    var r := DecodeAll([Encode(e)]);
    assert Decode(Encode(e)) == Some(e);
    assert [Encode(e)][0] == Encode(r.value[0]);
    assert r.value == [e];
  }

  /** The first delivery to an empty store is accepted and acknowledged through sequence 1. */
  lemma FirstDelivery(setup: Setup, a: Event)
    requires Stores.ValidateEvent(setup.store, setup.scope, a).None? && setup.store.fits(a)
    requires a.sequence == 1
    ensures Stores.IngestBatch(setup.store, Stores.EMPTY_STORE, setup.scope, [a]).Success?
    ensures var (store, ack) := Stores.IngestBatch(setup.store, Stores.EMPTY_STORE, setup.scope, [a]).value;
      ack.durableThrough == 1 && forall x | x in store.rows :: x == a
  {
    Stores.IngestSucceedsIff(setup.store, Stores.EMPTY_STORE, setup.scope, [a]);
    Stores.IngestKeepsInv(setup.store, Stores.EMPTY_STORE, setup.scope, [a]);
    var (store, ack) := Stores.IngestBatch(setup.store, Stores.EMPTY_STORE, setup.scope, [a]).value;
    assert a in [a];
    assert Stores.HasSequence(store.rows, setup.scope, 1);
    Stores.DurableIsUnique(store.rows, setup.scope, ack.durableThrough, 1);
    assert !Stores.HasSequence(store.rows, setup.scope, 2);
  }

  /** A torn append leaves its record in the spool, and a send puts it on the wire. */
  lemma TornRecordIsSent(setup: Setup, va: Json)
    requires Spools.ValidRecord(va) && Spools.SequenceOf(va) == 1
    requires setup.spool.maxBytes >= setup.spool.lineBytes(va)
    ensures var s2 := Next(setup, Next(setup, EMPTY_SYSTEM, TornAppend(va)), Send(1));
      s2 == EMPTY_SYSTEM.(spool := Spools.SpoolRun(Spools.SpoolFiles([va], 0), [va]), sent := {[va]})
  {
    var s1 := Next(setup, EMPTY_SYSTEM, TornAppend(va));
    assert Spools.Judge(setup.spool, EMPTY_SYSTEM.spool.files, va) == Spools.Write;
    assert s1.spool == Spools.SpoolRun(Spools.SpoolFiles([va], 0), [va]);
    assert Spools.ReadRecords(s1.spool.files) == Success([va]) by {
      Spools.SortedFileIsItsOwnRecordList([va]);
    }
    assert Next(setup, s1, Send(1)).sent == {[va]};
  }

  lemma OnlyRecordIsAcknowledged(setup: Setup, sys: System, va: Json)
    requires Spools.ValidRecord(va) && Spools.SequenceOf(va) == 1
    requires sys.spool == Spools.SpoolRun(Spools.SpoolFiles([va], 0), [va])
    ensures Next(setup, sys, Receive(1)) == sys.(spool := Spools.SpoolRun(Spools.SpoolFiles([], 0), [va]))
  {
    assert Spools.ReadRecords(sys.spool.files) == Success([va]) by {
      Spools.SortedFileIsItsOwnRecordList([va]);
    }
    Spools.AboveOfNone([va], 1);
  }

  /** A torn record is delivered, acknowledged and removed; the watermark has not moved. */
  lemma TornRecordIsAcknowledged(setup: Setup, a: Event)
    requires Stores.ValidateEvent(setup.store, setup.scope, a).None? && setup.store.fits(a)
    requires a.sequence == 1
    requires setup.spool.maxBytes >= setup.spool.lineBytes(Encode(a))
    ensures var s2 := Next(setup, Next(setup, EMPTY_SYSTEM, TornAppend(Encode(a))), Send(1));
      var s3 := Next(setup, s2, Deliver([Encode(a)]));
      && [Encode(a)] in s2.sent && s3.acks == {1}
      && Next(setup, s3, Receive(1)) ==
         s3.(spool := Spools.SpoolRun(Spools.SpoolFiles([], 0), [Encode(a)]))
      && forall x | x in s3.store.rows :: x == a
  {
    var va := Encode(a);
    assert Spools.ValidRecord(va) && Spools.SequenceOf(va) == 1;
    TornRecordIsSent(setup, va);
    FirstDelivery(setup, a);
    DecodeSingle(a);
    var s2 := Next(setup, Next(setup, EMPTY_SYSTEM, TornAppend(va)), Send(1));
    var s3 := Next(setup, s2, Deliver([va]));
    assert s3 == DeliverTo(setup, s2, [va]);
    hide Next, Stores.IngestBatch, Spools.ValidRecord;
    OnlyRecordIsAcknowledged(setup, s3, va);
  }

  /** With a stale watermark the sequence is handed out again, and an old acknowledgement removes its new owner. */
  lemma RepeatedAckRemovesNewOwner(setup: Setup, sys: System, va: Json, vb: Json)
    requires sys.spool == Spools.SpoolRun(Spools.SpoolFiles([], 0), [va])
    requires Spools.ValidRecord(vb) && Spools.SequenceOf(vb) == 1
    requires setup.spool.maxBytes >= setup.spool.lineBytes(vb)
    ensures var after := Next(setup, Next(setup, sys, Append(vb)), Receive(1));
      after.spool.files.lines == [] && after.spool.written == [va, vb] && after.store == sys.store
  {
    var s1 := Next(setup, sys, Append(vb));
    assert Spools.Judge(setup.spool, sys.spool.files, vb) == Spools.Write;
    assert s1.spool == Spools.SpoolRun(Spools.SpoolFiles([vb], 1), [va, vb]);
    assert Spools.ReadRecords(s1.spool.files) == Success([vb]) by {
      Spools.SortedFileIsItsOwnRecordList([vb]);
    }
    Spools.AboveOfNone([vb], 1);
  }

  /**
   * Without the restart an event can be lost: a torn record is delivered, acknowledged and removed,
   * a second event takes its sequence, and a repeated acknowledgement removes that one unstored.
   */
  lemma TornAcknowledgeLosesAnEvent(setup: Setup, a: Event, b: Event)
    requires Stores.ValidateEvent(setup.store, setup.scope, a).None? && setup.store.fits(a)
    requires a.schemaVersion == b.schemaVersion && a.sequence == b.sequence == 1 && a != b
    requires setup.spool.maxBytes >= setup.spool.lineBytes(Encode(a)) + setup.spool.lineBytes(Encode(b))
    ensures var s2 := Next(setup, Next(setup, EMPTY_SYSTEM, TornAppend(Encode(a))), Send(1));
      var s3 := Next(setup, s2, Deliver([Encode(a)]));
      var s5 := Next(setup, Next(setup, s3, Receive(1)), Append(Encode(b)));
      var s6 := Next(setup, s5, Receive(1));
      && Possible(setup, s2, Deliver([Encode(a)])) && Possible(setup, s3, Receive(1)) && Possible(setup, s5, Receive(1))
      && Encode(b) in s6.spool.written && !NothingLost(setup, s6)
  {
    TornRecordIsAcknowledged(setup, a);
    var s2 := Next(setup, Next(setup, EMPTY_SYSTEM, TornAppend(Encode(a))), Send(1));
    var s4 := Next(setup, Next(setup, s2, Deliver([Encode(a)])), Receive(1));
    RepeatedAckRemovesNewOwner(setup, s4, Encode(a), Encode(b));
    var s6 := Next(setup, Next(setup, s4, Append(Encode(b))), Receive(1));
    assert Encode(b) in s6.spool.written && b !in s6.store.rows;
  }

  /** With nothing left above it in the spool, a record at the acknowledged sequence goes in and out again. */
  lemma AppendedThenAcknowledged(setup: Setup, sys: System, b: Json, n: nat)
    requires sys.spool.files.lines == [] && Spools.ValidRecord(b)
    requires sys.spool.files.mark + 1 == Spools.SequenceOf(b) <= n && Spools.SequenceOf(b) <= U64_MAX
    requires Spools.SaturatingAdd(0, setup.spool.lineBytes(b)) <= setup.spool.maxBytes
    ensures var s1 := Next(setup, sys, Append(b));
      && Restarted(s1, Receive(n))
      && Next(setup, s1, Receive(n)) == sys.(spool :=
           Spools.SpoolRun(Spools.SpoolFiles([], Spools.SequenceOf(b)), sys.spool.written + [b]))
  {
    var s1 := Next(setup, sys, Append(b));
    assert Spools.Judge(setup.spool, sys.spool.files, b) == Spools.Write;
    assert s1.spool.files.lines == [b];
    assert Spools.ReadRecords(s1.spool.files) == Success([b]) by {
      Spools.SortedFileIsItsOwnRecordList([b]);
    }
    Spools.AboveOfNone([b], n);
  }

  lemma TornAcknowledgeEmpties(setup: Setup, sys: System, n: nat)
    requires Spools.SpoolInv(setup.spool, sys.spool)
    requires !Restarted(sys, Receive(n))
    ensures Next(setup, sys, Receive(n)).spool == Spools.SpoolRun(Spools.SpoolFiles([], sys.spool.files.mark), sys.spool.written)
    ensures sys.spool.files.mark + 1 == Spools.Top(sys.spool.files) <= n
    ensures forall v | v in sys.spool.files.lines :: Spools.SequenceOf(v) <= n
    ensures var lines := sys.spool.files.lines;
      lines != [] && lines[|lines| - 1] in lines && Spools.SequenceOf(lines[|lines| - 1]) == Spools.Top(sys.spool.files)
  {
    var f := sys.spool.files;
    forall v | v in f.lines ensures Spools.SequenceOf(v) <= n {
      var i :| 0 <= i < |f.lines| && f.lines[i] == v;
    }
    Spools.RecordsAreLines(setup.spool, f);
    Spools.AboveOfNone(f.lines, n);
  }

  /** Every record written so far is at the server once all pending ones are acknowledged. */
  lemma AcknowledgedIsStored(setup: Setup, sys: System, n: nat, v: Json)
    requires Inv(setup, sys) && n in sys.acks
    requires forall x | x in sys.spool.files.lines :: Spools.SequenceOf(x) <= n
    requires v in sys.spool.written
    ensures StoredAs(sys.store.rows, setup.scope, v)
  {
    if v in sys.spool.files.lines {
      assert Spools.ValidRecord(v);
      StoredSequenceIsThisValue(setup, sys, v);
    }
  }

  /** A stored record was written under its sequence, so below the 64-bit limit it is the record written there. */
  lemma StoredIsTheOneWritten(setup: Setup, sys: System, w: Json, b: Json)
    requires Spools.BoundOnce(sys.spool.written) && Authentic(setup.scope, sys.store.rows, sys.spool.written)
    requires w in sys.spool.written && Spools.SequenceOf(w) == Spools.SequenceOf(b) < U64_MAX
    requires StoredAs(sys.store.rows, setup.scope, b)
    ensures b == w
  {
    var e := Decode(b).value;
    assert b == Encode(e) && Encode(e) in sys.spool.written;
  }

  /**
   * From any state of the protocol: acknowledge a torn record without a reopen, append `b` under the
   * sequence that is handed out again, and let the same acknowledgement arrive once more. Something is
   * lost exactly when `b` is not the torn record itself.
   */
  lemma TornAcknowledgeLosesIff(setup: Setup, sys: System, n: nat, b: Json)
    requires Inv(setup, sys) && n in sys.acks
    requires !Restarted(sys, Receive(n)) && Spools.Top(sys.spool.files) < U64_MAX
    requires Spools.ValidRecord(b) && Spools.SequenceOf(b) == Spools.Top(sys.spool.files)
    requires Spools.SaturatingAdd(0, setup.spool.lineBytes(b)) <= setup.spool.maxBytes
    ensures var s1 := Next(setup, sys, Receive(n));
      var s2 := Next(setup, s1, Append(b));
      && n in s2.acks && Restarted(s2, Receive(n))
      && (NothingLost(setup, Next(setup, s2, Receive(n))) <==> b in sys.spool.files.lines)
  {
    TornAcknowledgeEmpties(setup, sys, n);
    var s1 := Next(setup, sys, Receive(n));
    assert s1.store == sys.store && s1.acks == sys.acks;
    AppendedThenAcknowledged(setup, s1, b, n);
    var s2 := Next(setup, s1, Append(b));
    assert s2.acks == sys.acks;
    var s3 := Next(setup, s2, Receive(n));
    var lines := sys.spool.files.lines;
    var w := lines[|lines| - 1];
    assert w in sys.spool.written && Spools.BoundOnce(sys.spool.written) && forall v | v in lines :: v in sys.spool.written;
    hide Next, Restarted, Spools.SpoolInv, Spools.FilesInv, Spools.BoundOnce, Spools.Top, Stores.StoreInv, StoredAs;
    if b in lines {
      forall v | v in s3.spool.written ensures StoredAs(s3.store.rows, setup.scope, v) {
        AcknowledgedIsStored(setup, sys, n, v);
      }
    }
    assert NothingLost(setup, s3) ==> b in lines by {
      if NothingLost(setup, s3) {
        assert b in s3.spool.written;
        StoredIsTheOneWritten(setup, sys, w, b);
      }
    }
  }

  /** Nothing is lost in any continuation that reopens after torn appends. */
  ghost predicate SafeFrom(setup: Setup, sys: System) {
    forall steps | PossibleRun(setup, sys, steps) && RestartedRun(setup, sys, steps) :: NothingLost(setup, Run(setup, sys, steps))
  }

  /**
   * The exact condition on one acknowledgement, in terms of delivery itself: every continuation keeps
   * every record if and only if a torn record is not acknowledged before a reopen. `b` is any other
   * event the collector could have for the torn record's sequence.
   */
  lemma ReceiveIsSafeIff(setup: Setup, sys: System, n: nat, b: Json)
    requires Inv(setup, sys) && n in sys.acks && Spools.Top(sys.spool.files) < U64_MAX
    requires Spools.ValidRecord(b) && Spools.SequenceOf(b) == Spools.Top(sys.spool.files) && b !in sys.spool.files.lines
    requires Spools.SaturatingAdd(0, setup.spool.lineBytes(b)) <= setup.spool.maxBytes
    ensures SafeFrom(setup, Next(setup, sys, Receive(n))) <==> Restarted(sys, Receive(n))
  {
    var s1 := Next(setup, sys, Receive(n));
    assert Restarted(s1, Append(b));
    hide Inv, Next, Restarted, NothingLost, Spools.ValidRecord, Spools.Top, Spools.SequenceOf;
    if Restarted(sys, Receive(n)) {
      ReceiveIsSafe(setup, sys, n);
    } else {
      TornAcknowledgeLosesIff(setup, sys, n, b);
      var rest := [Receive(n)];
      RunCons(setup, s1, Append(b), rest);
      RunCons(setup, Next(setup, s1, Append(b)), Receive(n), []);
      assert [Receive(n)] + [] == rest;
      var steps := [Append(b)] + rest;
      assert PossibleRun(setup, s1, steps) && RestartedRun(setup, s1, steps) && !NothingLost(setup, Run(setup, s1, steps));
    }
  }

  lemma ReceiveIsSafe(setup: Setup, sys: System, n: nat)
    requires Inv(setup, sys) && n in sys.acks && Restarted(sys, Receive(n))
    ensures SafeFrom(setup, Next(setup, sys, Receive(n)))
  {
    ReceiveKeeps(setup, sys, n);
    var s1 := Next(setup, sys, Receive(n));
    hide Next;
    forall steps | PossibleRun(setup, s1, steps) && RestartedRun(setup, s1, steps)
      ensures NothingLost(setup, Run(setup, s1, steps))
    {
      RunKeepsInv(setup, s1, steps);
    }
  }

  lemma RunCons(setup: Setup, sys: System, step: Step, rest: seq<Step>)
    ensures Run(setup, sys, [step] + rest) == Run(setup, Next(setup, sys, step), rest)
    ensures PossibleRun(setup, sys, [step] + rest) <==>
      Possible(setup, sys, step) && PossibleRun(setup, Next(setup, sys, step), rest)
    ensures RestartedRun(setup, sys, [step] + rest) <==>
      Restarted(sys, step) && RestartedRun(setup, Next(setup, sys, step), rest)
  {
    hide Next, Possible, Restarted;
    assert ([step] + rest)[0] == step && ([step] + rest)[1..] == rest;
  }

  // ---------- progress ----------

  /** The pending records decode, are valid for the scope, and use no identifier bound to another event. */
  ghost predicate Deliverable(setup: Setup, sys: System, events: seq<Event>) {
    && (forall e | e in events :: Stores.ValidateEvent(setup.store, setup.scope, e).None? && setup.store.fits(e))
    && (forall x, e | x in sys.store.rows && e in events && x.id == e.id :: x == e)
    && (forall e, f | e in events && f in events && e.id == f.id :: e == f)
  }

  /** One sequence of this scope cannot be bound to two events, whether stored or still in the spool. */
  lemma OneEventPerSequence(setup: Setup, written: seq<Json>, x: Event, e: Event)
    requires Spools.BoundOnce(written)
    requires Encode(x) in written && Encode(e) in written
    requires x.sequence == e.sequence <= I64_MAX
    ensures x == e
  {
    assert Spools.SequenceOf(Encode(x)) == Spools.SequenceOf(Encode(e));
  }

  lemma DeliverableIsCompatible(setup: Setup, sys: System, events: seq<Event>)
    requires Spools.BoundOnce(sys.spool.written)
    requires Authentic(setup.scope, sys.store.rows, sys.spool.written)
    requires forall e | e in events :: Encode(e) in sys.spool.written
    requires Deliverable(setup, sys, events)
    ensures Stores.Compatible(setup.store, sys.store.rows, events)
  {
    forall x, e | x in sys.store.rows && e in events ensures Stores.Agree(x, e) {
      assert Stores.ValidateEvent(setup.store, setup.scope, e).None?;
      if x.body.scope == e.body.scope && x.sequence == e.sequence {
        OneEventPerSequence(setup, sys.spool.written, x, e);
      }
    }
    forall e, f | e in events && f in events ensures Stores.Agree(e, f) {
      assert Stores.ValidateEvent(setup.store, setup.scope, e).None?;
      if e.sequence == f.sequence {
        OneEventPerSequence(setup, sys.spool.written, e, f);
      }
    }
  }

  /** Every sequence below the first pending record is already stored. */
  lemma PrunedIsStored(setup: Setup, sys: System, k: nat)
    requires Inv(setup, sys)
    requires sys.spool.files.lines != []
    requires 1 <= k < Spools.SequenceOf(sys.spool.files.lines[0])
    ensures Stores.HasSequence(sys.store.rows, setup.scope, k)
  {
    var lines := sys.spool.files.lines;
    assert Spools.LastSequence(lines) == Spools.SequenceOf(lines[0]) + |lines| - 1;
    assert Spools.WasWritten(sys.spool.written, k);
    var w :| w in sys.spool.written && Spools.SequenceOf(w) == k;
    assert forall i | 0 <= i < |lines| :: Spools.SequenceOf(lines[i]) != k;
    assert StoredAs(sys.store.rows, setup.scope, w);
  }

  /** The batch an exporter sends: a contiguous prefix of the record file. */
  lemma PendingIsPrefix(setup: Setup, sys: System, limit: nat)
    requires Spools.FilesInv(setup.spool, sys.spool.files)
    ensures var lines := sys.spool.files.lines;
      var n := if limit < 1000 then limit else 1000;
      Spools.PendingRecords(sys.spool.files, limit) == Success(if n < |lines| then lines[..n] else lines)
  {
    Spools.RecordsAreLines(setup.spool, sys.spool.files);
  }

  /** The events are the front of the record file, in order, and belong to the spool's scope. */
  ghost predicate FrontOfFile(setup: Setup, sys: System, events: seq<Event>) {
    && 1 <= |events| <= |sys.spool.files.lines|
    && forall i | 0 <= i < |events| ::
         sys.spool.files.lines[i] == Encode(events[i]) && events[i].body.scope == setup.scope
  }

  ghost predicate AllWritten(sys: System, events: seq<Event>) {
    forall e | e in events :: Encode(e) in sys.spool.written
  }

  ghost predicate GainsExactly(rows: seq<Event>, events: seq<Event>, rows': seq<Event>) {
    forall x :: x in rows' <==> x in rows || x in events
  }

  /** Delivering a prefix of the spool moves the durable mark to the end of that prefix. */
  lemma PrefixBecomesDurable(setup: Setup, sys: System, events: seq<Event>, store: Stores.StoreState, durable: nat)
    requires Inv(setup, sys)
    requires FrontOfFile(setup, sys, events)
    requires GainsExactly(sys.store.rows, events, store.rows)
    requires Stores.IsDurable(store.rows, setup.scope, durable)
    ensures forall e | e in events :: e in store.rows && e.sequence <= durable
  {
    var lines := sys.spool.files.lines;
    var first := Spools.SequenceOf(lines[0]);
    forall i | 0 <= i < |events| ensures events[i].sequence == first + i {
      assert Spools.ValidRecord(lines[i]);
    }
    var last := first + |events| - 1;
    forall k | 1 <= k <= last ensures Stores.HasSequence(store.rows, setup.scope, k) {
      if k < first {
        PrunedIsStored(setup, sys, k);
        GrowingRowsKeepSequences(sys.store.rows, store.rows, setup.scope, k);
      } else {
        assert events[k - first] in store.rows;
      }
    }
    Stores.DurableIsUnique(store.rows, setup.scope, durable, last);
    forall e | e in events ensures e in store.rows && e.sequence <= durable {
      var i :| 0 <= i < |events| && events[i] == e;
    }
  }

  lemma LinesWereWritten(setup: Setup, sys: System)
    requires Inv(setup, sys)
    ensures forall v | v in sys.spool.files.lines :: v in sys.spool.written
  {
  }

  lemma DecodedPrefix(setup: Setup, sys: System, batch: seq<Json>, events: seq<Event>)
    requires Inv(setup, sys) && batch != [] && batch <= sys.spool.files.lines
    requires DecodeAll(batch) == Some(events) && Deliverable(setup, sys, events)
    ensures AllWritten(sys, events) && FrontOfFile(setup, sys, events)
  {
    LinesWereWritten(setup, sys);
    hide Inv, DecodeAll;
    forall i | 0 <= i < |events|
      ensures sys.spool.files.lines[i] == Encode(events[i]) && events[i].body.scope == setup.scope
    {
      assert events[i] in events && sys.spool.files.lines[i] == batch[i];
    }
  }

  lemma DeliverableIngests(setup: Setup, sys: System, events: seq<Event>)
    requires Inv(setup, sys)
    requires 1 <= |events| <= Stores.MAX_BATCH_EVENTS
    requires AllWritten(sys, events) && Deliverable(setup, sys, events)
    ensures Stores.IngestBatch(setup.store, sys.store, setup.scope, events).Success?
    ensures var (store, ack) := Stores.IngestBatch(setup.store, sys.store, setup.scope, events).value;
      && GainsExactly(sys.store.rows, events, store.rows)
      && Stores.IsDurable(store.rows, setup.scope, ack.durableThrough)
  {
    hide Stores.StoreInv, Stores.IngestBatch, Stores.Compatible, Stores.IsDurable, Authentic, NothingLost,
      AcksAreDurable, SentWasWritten, Spools.FilesInv, Spools.BoundOnce, Spools.Covers;
    DeliverableIsCompatible(setup, sys, events);
    Stores.IngestSucceedsIff(setup.store, sys.store, setup.scope, events);
    Stores.IngestEffect(setup.store, sys.store, setup.scope, events);
  }

  /** A deliverable prefix of the spool is accepted and acknowledged to its end. */
  lemma PrefixIsAccepted(setup: Setup, sys: System, batch: seq<Json>, events: seq<Event>)
    requires Inv(setup, sys)
    requires 1 <= |batch| <= Stores.MAX_BATCH_EVENTS && batch <= sys.spool.files.lines
    requires DecodeAll(batch) == Some(events) && Deliverable(setup, sys, events)
    ensures Stores.IngestBatch(setup.store, sys.store, setup.scope, events).Success?
    ensures var (store, ack) := Stores.IngestBatch(setup.store, sys.store, setup.scope, events).value;
      forall e | e in events :: e in store.rows && e.sequence <= ack.durableThrough
  {
    hide Inv, Deliverable, DecodeAll, FrontOfFile, AllWritten, GainsExactly, Stores.IngestBatch, Stores.IsDurable;
    DecodedPrefix(setup, sys, batch, events);
    DeliverableIngests(setup, sys, events);
    var (store, ack) := Stores.IngestBatch(setup.store, sys.store, setup.scope, events).value;
    PrefixBecomesDurable(setup, sys, events, store, ack.durableThrough);
  }

  /** What the last step of the round leaves: the batch is out of the spool and in the store. */
  ghost predicate Drained(setup: Setup, sys: System, batch: seq<Json>) {
    forall v | v in batch :: v !in sys.spool.files.lines && StoredAs(sys.store.rows, setup.scope, v)
  }

  lemma AcknowledgedPrefixIsDrained(setup: Setup, sys: System, batch: seq<Json>, events: seq<Event>, n: nat)
    requires Spools.FilesInv(setup.spool, sys.spool.files)
    requires DecodeAll(batch) == Some(events)
    requires forall e | e in events :: e in sys.store.rows && e.body.scope == setup.scope && e.sequence <= n
    ensures Drained(setup, Next(setup, sys, Receive(n)), batch)
  {
    var after := Next(setup, sys, Receive(n));
    assert after.spool.files == Spools.AcknowledgeFiles(sys.spool.files, n) && after.store == sys.store;
    hide Next, Spools.FilesInv, Spools.Top, Spools.AcknowledgeFiles, Spools.Allowed;
    Spools.AcknowledgeKeepsFiles(setup.spool, sys.spool.files, n);
    forall v | v in batch ensures StoredAs(sys.store.rows, setup.scope, v) && Spools.SequenceOf(v) <= n {
      var i :| 0 <= i < |batch| && batch[i] == v;
      assert v == Encode(events[i]) && events[i] in events && Decode(v).Some?;
    }
  }

  lemma DeliverPrefix(setup: Setup, sys: System, batch: seq<Json>, events: seq<Event>) returns (n: nat)
    requires Inv(setup, sys)
    requires 1 <= |batch| <= Stores.MAX_BATCH_EVENTS && batch <= sys.spool.files.lines
    requires DecodeAll(batch) == Some(events) && Deliverable(setup, sys, events)
    ensures var after := DeliverTo(setup, sys, batch);
      && after.spool == sys.spool && n in after.acks
      && forall e | e in events :: e in after.store.rows && e.body.scope == setup.scope && e.sequence <= n
  {
    PrefixIsAccepted(setup, sys, batch, events);
    n := Stores.IngestBatch(setup.store, sys.store, setup.scope, events).value.1.durableThrough;
  }

  /** Sending puts a non-empty prefix of the spool, within the batch limit, on the network. */
  lemma SendPutsPrefix(setup: Setup, sys: System, limit: nat, batch: seq<Json>)
    requires Spools.FilesInv(setup.spool, sys.spool.files)
    requires Spools.PendingRecords(sys.spool.files, limit) == Success(batch)
    ensures Next(setup, sys, Send(limit)) == sys.(sent := sys.sent + {batch})
    ensures batch <= sys.spool.files.lines && |batch| <= Stores.MAX_BATCH_EVENTS
  {
    PendingIsPrefix(setup, sys, limit);
  }

  lemma DeliverAndReceive(setup: Setup, sys: System, batch: seq<Json>, events: seq<Event>) returns (n: nat)
    requires Inv(setup, sys) && !Spools.Torn(sys.spool.files) && batch in sys.sent
    requires 1 <= |batch| <= Stores.MAX_BATCH_EVENTS && batch <= sys.spool.files.lines
    requires DecodeAll(batch) == Some(events) && Deliverable(setup, sys, events)
    ensures var s2 := Next(setup, sys, Deliver(batch));
      && n in s2.acks
      && Drained(setup, Next(setup, s2, Receive(n)), batch)
      && Inv(setup, Next(setup, s2, Receive(n)))
  {
    hide Spools.FilesInv, Spools.BoundOnce, Spools.Covers, Stores.StoreInv, Stores.IngestBatch, Deliverable, Drained;
    DeliverKeeps(setup, sys, batch);
    n := DeliverPrefix(setup, sys, batch, events);
    var s2 := Next(setup, sys, Deliver(batch));
    ReceiveKeeps(setup, s2, n);
    AcknowledgedPrefixIsDrained(setup, s2, batch, events, n);
  }

  /**
   * Progress: from any state a run can reach, if the pending records are deliverable and no append
   * is torn, one undisturbed send, delivery and acknowledgement stores the whole pending batch and
   * removes it from the spool.
   */
  lemma RoundDrainsPending(setup: Setup, sys: System, limit: nat, batch: seq<Json>, events: seq<Event>) returns (n: nat)
    requires Inv(setup, sys) && !Spools.Torn(sys.spool.files)
    requires Spools.PendingRecords(sys.spool.files, limit) == Success(batch) && batch != []
    requires DecodeAll(batch) == Some(events) && Deliverable(setup, sys, events)
    ensures var s2 := Next(setup, Next(setup, sys, Send(limit)), Deliver(batch));
      && n in s2.acks
      && Drained(setup, Next(setup, s2, Receive(n)), batch)
      && Inv(setup, Next(setup, s2, Receive(n)))
  {
    SendPutsPrefix(setup, sys, limit, batch);
    SendKeeps(setup, sys, limit);
    n := DeliverAndReceive(setup, Next(setup, sys, Send(limit)), batch, events);
  }

  lemma InvFiles(setup: Setup, sys: System)
    requires Inv(setup, sys)
    ensures Stores.StoreInv(setup.store, sys.store) && Spools.FilesInv(setup.spool, sys.spool.files)
  {
  }
}
