/** Progress for a whole spool: undisturbed rounds of send, deliver and acknowledge empty it. */
module SpoolDrain {
  import opened Outcomes
  import opened ActivityEvents
  import opened ActivityDelivery
  import Spools = ActivitySpools
  import Stores = ActivityStores

  /** What a round does to the two sides: the spool loses acknowledged records only, the store gains the batch only. */
  lemma RoundEffect(setup: Setup, sys: System, limit: nat, batch: seq<Json>, events: seq<Event>, n: nat)
    requires Stores.StoreInv(setup.store, sys.store) && DecodeAll(batch) == Some(events)
    ensures Next(setup, Next(setup, sys, Send(limit)), Deliver(batch)).spool == sys.spool
    ensures var s3 := Next(setup, Next(setup, Next(setup, sys, Send(limit)), Deliver(batch)), Receive(n));
      && s3.spool == sys.spool.(files := Spools.AcknowledgeFiles(sys.spool.files, n))
      && forall x | x in s3.store.rows :: x in sys.store.rows || x in events
  {
    hide Stores.StoreInv, Stores.IngestBatch, Spools.AcknowledgeFiles, DecodeAll;
    if Stores.IngestBatch(setup.store, sys.store, setup.scope, events).Success? {
      Stores.IngestEffect(setup.store, sys.store, setup.scope, events);
    }
  }

  lemma StillDeliverable(setup: Setup, sys: System, sys': System, events: seq<Event>, rest: seq<Event>)
    requires Deliverable(setup, sys, events)
    requires forall e | e in rest :: e in events
    requires forall x | x in sys'.store.rows :: x in sys.store.rows || x in events
    ensures Deliverable(setup, sys', rest)
  {
    hide Stores.ValidateEvent;
  }

  /** Decoding a slice gives the slice of the decoded list. */
  lemma {:induction false} DecodeSlice(lines: seq<Json>, events: seq<Event>, i: nat, j: nat)
    requires DecodeAll(lines) == Some(events) && i <= j <= |lines|
    ensures |events| == |lines| && DecodeAll(lines[i..j]) == Some(events[i..j])
  {
    var part := lines[i..j];
    forall v | v in part ensures Decode(v).Some? {
      assert v in lines;
    }
    var r := DecodeAll(part).value;
    forall k | 0 <= k < |part| ensures r[k] == events[i..j][k] {
      assert part[k] == Encode(r[k]) && part[k] == lines[i + k] == Encode(events[i + k]);
    }
    assert r == events[i..j];
  }

  /** After a round that drained its batch the file is shorter and still ends at the watermark. */
  lemma DrainedFileIsSuffix(cfg: Spools.SpoolConfig, f: Spools.SpoolFiles, n: nat) returns (k: nat)
    requires Spools.FilesInv(cfg, f) && !Spools.Torn(f) && f.lines != []
    requires f.lines[0] !in Spools.AcknowledgeFiles(f, n).lines
    ensures 1 <= k <= |f.lines|
    ensures Spools.AcknowledgeFiles(f, n).lines == f.lines[k..] && !Spools.Torn(Spools.AcknowledgeFiles(f, n))
  {
    k := Spools.AcknowledgeDropsPrefix(cfg, f, n);
    hide Spools.AcknowledgeFiles;
    assert f.lines[0..][0] in f.lines[0..];
  }

  /**
   * Progress for the whole spool: enough undisturbed rounds, of any positive batch limit, empty it, and
   * then every record ever written is stored unchanged at the server.
   */
  lemma {:induction false} RoundsEmptySpool(setup: Setup, sys: System, limit: nat, events: seq<Event>) returns (steps: seq<Step>)
    requires Inv(setup, sys) && !Spools.Torn(sys.spool.files) && limit >= 1
    requires DecodeAll(sys.spool.files.lines) == Some(events) && Deliverable(setup, sys, events)
    ensures PossibleRun(setup, sys, steps) && RestartedRun(setup, sys, steps)
    ensures var last := Run(setup, sys, steps);
      && Inv(setup, last) && last.spool.files.lines == [] && last.spool.written == sys.spool.written
      && forall v | v in sys.spool.written :: StoredAs(last.store.rows, setup.scope, v)
    decreases |sys.spool.files.lines|
  {
    steps := [];
    if sys.spool.files.lines != [] {
      InvFiles(setup, sys);
      hide Inv, Next, RoundPossible, AfterRound, Deliverable, DecodeAll, Spools.Torn, StoredAs, Spools.FilesInv,
        Stores.StoreInv, Spools.PendingRecords, Spools.AcknowledgeFiles;
      var batch := FirstBatch(setup, sys, limit);
      DecodeSlice(sys.spool.files.lines, events, 0, |batch|);
      StillDeliverable(setup, sys, sys, events, events[0..|batch|]);
      var n := FirstRound(setup, sys, limit, batch, events[0..|batch|]);
      var s3 := AfterRound(setup, sys, limit, batch, n);
      var k := LeftAfterRound(setup, sys, s3, events, n);
      var rest := RoundsEmptySpool(setup, s3, limit, events[k..]);
      RoundRuns(setup, sys, limit, batch, n, rest);
      steps := [Send(limit)] + ([Deliver(batch)] + ([Receive(n)] + rest));
    }
  }

  /** The state after one round. */
  function AfterRound(setup: Setup, sys: System, limit: nat, batch: seq<Json>, n: nat): System {
    Next(setup, Next(setup, Next(setup, sys, Send(limit)), Deliver(batch)), Receive(n))
  }

  ghost predicate RoundPossible(setup: Setup, sys: System, limit: nat, batch: seq<Json>, n: nat) {
    var s1 := Next(setup, sys, Send(limit));
    var s2 := Next(setup, s1, Deliver(batch));
    && Possible(setup, s1, Deliver(batch)) && Possible(setup, s2, Receive(n)) && Restarted(s2, Receive(n))
  }

  lemma RoundRuns(setup: Setup, sys: System, limit: nat, batch: seq<Json>, n: nat, rest: seq<Step>)
    requires RoundPossible(setup, sys, limit, batch, n)
    ensures var steps := [Send(limit)] + ([Deliver(batch)] + ([Receive(n)] + rest));
      var s3 := AfterRound(setup, sys, limit, batch, n);
      && Run(setup, sys, steps) == Run(setup, s3, rest)
      && (PossibleRun(setup, s3, rest) ==> PossibleRun(setup, sys, steps))
      && (RestartedRun(setup, s3, rest) ==> RestartedRun(setup, sys, steps))
  {
    hide Next;
    var s1 := Next(setup, sys, Send(limit));
    var s2 := Next(setup, s1, Deliver(batch));
    RunCons(setup, s2, Receive(n), rest);
    RunCons(setup, s1, Deliver(batch), [Receive(n)] + rest);
    RunCons(setup, sys, Send(limit), [Deliver(batch)] + ([Receive(n)] + rest));
  }

  /** One round of the drain can happen, keeps the invariant and takes the first record out of the file. */
  lemma FirstRound(setup: Setup, sys: System, limit: nat, batch: seq<Json>, part: seq<Event>) returns (n: nat)
    requires Inv(setup, sys) && !Spools.Torn(sys.spool.files)
    requires Spools.PendingRecords(sys.spool.files, limit) == Success(batch) && batch != []
    requires DecodeAll(batch) == Some(part) && Deliverable(setup, sys, part)
    ensures RoundPossible(setup, sys, limit, batch, n)
    ensures var s3 := AfterRound(setup, sys, limit, batch, n);
      && Inv(setup, s3)
      && s3.spool == sys.spool.(files := Spools.AcknowledgeFiles(sys.spool.files, n))
      && batch[0] !in s3.spool.files.lines
      && forall x | x in s3.store.rows :: x in sys.store.rows || x in part
  {
    InvFiles(setup, sys);
    hide Inv, Next, Deliverable, DecodeAll, RoundPossible, Drained, Spools.FilesInv, Spools.PendingRecords,
      Stores.StoreInv, Spools.AcknowledgeFiles, Spools.Torn, Authentic;
    SendPutsPrefix(setup, sys, limit, batch);
    n := RoundDrainsPending(setup, sys, limit, batch, part);
    RoundEffect(setup, sys, limit, batch, part, n);
    RoundIsPossible(setup, sys, limit, batch, n);
    DrainedFirst(setup, AfterRound(setup, sys, limit, batch, n), batch);
  }

  lemma RoundIsPossible(setup: Setup, sys: System, limit: nat, batch: seq<Json>, n: nat)
    requires Next(setup, sys, Send(limit)) == sys.(sent := sys.sent + {batch}) && !Spools.Torn(sys.spool.files)
    requires var s2 := Next(setup, Next(setup, sys, Send(limit)), Deliver(batch)); s2.spool == sys.spool && n in s2.acks
    ensures RoundPossible(setup, sys, limit, batch, n)
  {
    hide Next;
  }

  lemma DrainedFirst(setup: Setup, sys: System, batch: seq<Json>)
    requires Drained(setup, sys, batch) && batch != []
    ensures batch[0] !in sys.spool.files.lines
  {
    assert batch[0] in batch;
  }

  /** What is left after a round is shorter and again deliverable. */
  lemma LeftAfterRound(setup: Setup, sys: System, s3: System, events: seq<Event>, n: nat) returns (k: nat)
    requires Spools.FilesInv(setup.spool, sys.spool.files) && !Spools.Torn(sys.spool.files)
    requires DecodeAll(sys.spool.files.lines) == Some(events) && Deliverable(setup, sys, events)
    requires sys.spool.files.lines != [] && sys.spool.files.lines[0] !in s3.spool.files.lines
    requires s3.spool == sys.spool.(files := Spools.AcknowledgeFiles(sys.spool.files, n))
    requires forall x | x in s3.store.rows :: x in sys.store.rows || x in events
    ensures 1 <= k <= |events| && |s3.spool.files.lines| < |sys.spool.files.lines|
    ensures !Spools.Torn(s3.spool.files)
    ensures DecodeAll(s3.spool.files.lines) == Some(events[k..]) && Deliverable(setup, s3, events[k..])
  {
    hide Deliverable, DecodeAll, Spools.FilesInv, Spools.AcknowledgeFiles, Spools.Torn;
    var lines := sys.spool.files.lines;
    k := DrainedFileIsSuffix(setup.spool, sys.spool.files, n);
    DecodeSlice(lines, events, k, |lines|);
    assert lines[k..|lines|] == lines[k..] && events[k..|lines|] == events[k..];
    StillDeliverable(setup, sys, s3, events, events[k..]);
  }

  /** With records pending and a positive limit, the exporter sends a non-empty prefix. */
  lemma FirstBatch(setup: Setup, sys: System, limit: nat) returns (batch: seq<Json>)
    requires Spools.FilesInv(setup.spool, sys.spool.files) && limit >= 1 && sys.spool.files.lines != []
    ensures Spools.PendingRecords(sys.spool.files, limit) == Success(batch)
    ensures 1 <= |batch| <= |sys.spool.files.lines| && batch == sys.spool.files.lines[0..|batch|]
  {
    PendingIsPrefix(setup, sys, limit);
    batch := Spools.PendingRecords(sys.spool.files, limit).value;
  }

  /**
   * Whatever happened before, a spool can be emptied: after any run from the start, a restart of the agent
   * and then enough undisturbed rounds leave nothing in it, and every record ever written is stored
   * unchanged at the server, provided the records still pending are deliverable.
   */
  lemma AnyRunCanBeDrained(setup: Setup, sys: System, before: seq<Step>, limit: nat, events: seq<Event>) returns (after: seq<Step>)
    requires Start(setup, sys) && setup.spool.maxBytes > 0 && limit >= 1
    requires PossibleRun(setup, sys, before) && RestartedRun(setup, sys, before)
    requires var mid := Next(setup, Run(setup, sys, before), Reopen);
      DecodeAll(mid.spool.files.lines) == Some(events) && Deliverable(setup, mid, events)
    ensures var mid := Next(setup, Run(setup, sys, before), Reopen);
      var last := Run(setup, mid, after);
      && PossibleRun(setup, mid, after) && RestartedRun(setup, mid, after)
      && last.spool.files.lines == [] && last.spool.written == mid.spool.written
      && forall v | v in last.spool.written :: StoredAs(last.store.rows, setup.scope, v)
  {
    StartInv(setup, sys);
    RunKeepsInv(setup, sys, before);
    var end := Run(setup, sys, before);
    ReopenIsUntorn(setup, end);
    hide Inv, Next, Run, Deliverable, DecodeAll, StoredAs, Spools.Torn;
    after := RoundsEmptySpool(setup, Next(setup, end, Reopen), limit, events);
  }

  lemma StartInv(setup: Setup, sys: System)
    requires Start(setup, sys)
    ensures Inv(setup, sys)
  {
  }

  lemma ReopenIsUntorn(setup: Setup, sys: System)
    requires Inv(setup, sys) && setup.spool.maxBytes > 0
    ensures Inv(setup, Next(setup, sys, Reopen)) && !Spools.Torn(Next(setup, sys, Reopen).spool.files)
  {
    ReopenKeeps(setup, sys);
    Spools.ReopenKeepsInv(setup.spool, sys.spool);
  }
}
