/** The bounded event queue shared by the Linux and the macOS collector, and its coupling to the spool. */
module ActivityCollectors {
  import opened Outcomes
  import opened ActivityEvents
  import opened ActivitySpools

  const LOSS_EVENT := "telemetry.loss"

  datatype CollectorHealth = CollectorHealth(accepted: nat, dropped: nat, maxQueueDepth: nat)

  datatype Queue = Queue(
    capacity: nat,
    items: seq<Json>,
    nextSequence: nat,
    pendingLoss: nat,
    health: CollectorHealth)

  /** What the environment supplies to a generated event: a fresh identifier, the scope and the clock. */
  datatype Stamp = Stamp(id: string, scope: Scope, now: int)

  // ---------- queue operations ----------

  function NewQueue(capacity: nat, nextSequence: nat): Queue {
    Queue(capacity, [], if nextSequence > 1 then nextSequence else 1, 0, CollectorHealth(0, 0, 0))
  }

  function BaseEvent(q: Queue, id: string, body: Body): Json {
    Json(Some(SCHEMA_VERSION), Some(id), Some(q.nextSequence), Typed(body))
  }

  function LossBody(scope: Scope, now: int, lost: nat): Body {
    Body(scope, LOSS_EVENT, "integrity", "observed", None, map[], now, now,
         Payload(Some(lost), None, None, "normalization_queue_full"))
  }

  function Enqueue(q: Queue, e: Json): Queue {
    if |q.items| >= q.capacity then
      q.(pendingLoss := q.pendingLoss + 1, health := q.health.(dropped := q.health.dropped + 1))
    else
      var items := q.items + [e];
      var deepest := if |items| > q.health.maxQueueDepth then |items| else q.health.maxQueueDepth;
      q.(items := items, nextSequence := q.nextSequence + 1,
         health := q.health.(accepted := q.health.accepted + 1, maxQueueDepth := deepest))
  }

  function EnqueuePendingLoss(q: Queue, stamp: Stamp): Queue {
    if q.pendingLoss == 0 || |q.items| >= q.capacity then q
    else
      var taken := q.(pendingLoss := 0);
      Enqueue(taken, BaseEvent(taken, stamp.id, LossBody(stamp.scope, stamp.now, q.pendingLoss)))
  }

  function Min(a: nat, b: nat): nat { if a < b then a else b }

  /** Takes up to `limit` events from the front, then reports any pending loss. */
  function DrainQueue(q: Queue, limit: nat, stamp: Stamp): (seq<Json>, Queue) {
    var k := Min(limit, |q.items|);
    (q.items[..k], EnqueuePendingLoss(q.(items := q.items[k..]), stamp))
  }

  // ---------- loss conservation ----------

  predicate IsLoss(v: Json) {
    v.rest.Typed? && v.rest.body.name == LOSS_EVENT && v.rest.body.payload.lostObservations.Some?
  }

  function Lost(v: Json): nat {
    if IsLoss(v) then v.rest.body.payload.lostObservations.value else 0
  }

  function LossTotal(s: seq<Json>): nat {
    if s == [] then 0 else LossTotal(s[..|s| - 1]) + Lost(s[|s| - 1])
  }

  /**
   * `taken` is every event that ever left the queue, oldest first; `first` the starting sequence.
   * Together with the queue it is the list of every event ever accepted.
   */
  ghost predicate QueueInv(first: nat, taken: seq<Json>, q: Queue) {
    && QueueShape(first, taken + q.items, q)
    && q.health.dropped == q.pendingLoss + LossTotal(taken + q.items)
  }

  /** `all` is numbered consecutively and counted, and the queue is within its bounds. */
  ghost predicate QueueShape(first: nat, all: seq<Json>, q: Queue) {
    && q.capacity > 0
    && |q.items| <= q.health.maxQueueDepth <= q.capacity
    && q.health.accepted == |all|
    && q.nextSequence == first + |all|
    && (forall i | 0 <= i < |all| :: all[i].collectorSequence == Some(first + i))
  }

  lemma LossTotalAppend(s: seq<Json>, e: Json)
    ensures LossTotal(s + [e]) == LossTotal(s) + Lost(e)
  {
    assert (s + [e])[..|s + [e]| - 1] == s;
  }

  datatype QueueStep =
    | Observe(id: string, body: Body)
    | Drain(limit: nat, stamp: Stamp)
    | Flush(moved: nat, failed: bool, stamp: Stamp)   // `moved` events went to the spool before the limit or an error

  /** Only the collector itself emits loss events. */
  predicate IsObservation(step: QueueStep) {
    step.Observe? ==> step.body.name != LOSS_EVENT
  }

  function StepQueue(taken: seq<Json>, q: Queue, step: QueueStep): (seq<Json>, Queue) {
    match step
    case Observe(id, body) => (taken, Enqueue(q, BaseEvent(q, id, body)))
    case Drain(limit, stamp) =>
      var (out, rest) := DrainQueue(q, limit, stamp);
      (taken + out, rest)
    case Flush(moved, failed, stamp) =>
      var k := Min(moved, |q.items|);
      var rest := q.(items := q.items[k..]);
      (taken + q.items[..k], if failed then rest else EnqueuePendingLoss(rest, stamp))
  }

  function RunQueue(taken: seq<Json>, q: Queue, steps: seq<QueueStep>): (seq<Json>, Queue)
    decreases |steps|
  {
    if steps == [] then (taken, q)
    else
      var (t, r) := StepQueue(taken, q, steps[0]);
      RunQueue(t, r, steps[1..])
  }

  lemma EnqueueKeepsShape(first: nat, all: seq<Json>, q: Queue, e: Json, pending: nat)
    requires QueueShape(first, all, q)
    requires e.collectorSequence == Some(q.nextSequence)
    requires |q.items| < q.capacity
    ensures QueueShape(first, all + [e], Enqueue(q.(pendingLoss := pending), e))
  {
  }

  /** An event that finds room extends the accepted history by itself. */
  lemma AcceptedKeepsInv(first: nat, taken: seq<Json>, q: Queue, e: Json, pending: nat)
    requires QueueInv(first, taken, q)
    requires e.collectorSequence == Some(q.nextSequence)
    requires |q.items| < q.capacity
    requires q.pendingLoss == pending + Lost(e)
    ensures QueueInv(first, taken, Enqueue(q.(pendingLoss := pending), e))
  {
    hide QueueShape, LossTotal, Lost;
    EnqueueKeepsShape(first, taken + q.items, q, e, pending);
    LossTotalAppend(taken + q.items, e);
    assert taken + (q.items + [e]) == (taken + q.items) + [e];
  }

  lemma EnqueueKeepsInv(first: nat, taken: seq<Json>, q: Queue, e: Json)
    requires QueueInv(first, taken, q)
    requires e.collectorSequence == Some(q.nextSequence)
    requires Lost(e) == 0
    ensures QueueInv(first, taken, Enqueue(q, e))
  {
    hide LossTotal, Lost;
    if |q.items| < q.capacity {
      AcceptedKeepsInv(first, taken, q, e, q.pendingLoss);
    }
  }

  /** With room in the queue, a pending loss becomes one loss event that carries the whole count and is queued last. */
  lemma PendingLossIsQueued(q: Queue, stamp: Stamp) returns (e: Json)
    requires q.pendingLoss > 0 && |q.items| < q.capacity
    ensures IsLoss(e) && Lost(e) == q.pendingLoss && e.collectorSequence == Some(q.nextSequence)
    ensures e.schemaVersion == Some("activity.event/v1") && e.eventId == Some(stamp.id)
    ensures var b := e.rest.body;
      && b.scope == stamp.scope && b.name == "telemetry.loss" && b.plane == "integrity" && b.trust == "observed"
      && b.occurredAt == b.observedAt == stamp.now
      && b.payload.lostObservations == Some(q.pendingLoss) && b.payload.other == "normalization_queue_full"
    ensures EnqueuePendingLoss(q, stamp) == Enqueue(q.(pendingLoss := 0), e)
    ensures EnqueuePendingLoss(q, stamp).items == q.items + [e] && EnqueuePendingLoss(q, stamp).pendingLoss == 0
  {
    e := BaseEvent(q, stamp.id, LossBody(stamp.scope, stamp.now, q.pendingLoss));
  }

  /** Reporting a pending loss keeps the balance and drops nothing. */
  lemma PendingLossKeepsInv(first: nat, taken: seq<Json>, q: Queue, stamp: Stamp)
    requires QueueInv(first, taken, q)
    ensures QueueInv(first, taken, EnqueuePendingLoss(q, stamp))
    ensures EnqueuePendingLoss(q, stamp).health.dropped == q.health.dropped
  {
    hide QueueInv, Lost;
    if q.pendingLoss > 0 && |q.items| < q.capacity {
      var e := PendingLossIsQueued(q, stamp);
      AcceptedKeepsInv(first, taken, q, e, 0);
    }
  }

  lemma TakeKeepsInv(first: nat, taken: seq<Json>, q: Queue, k: nat)
    requires QueueInv(first, taken, q)
    requires k <= |q.items|
    ensures QueueInv(first, taken + q.items[..k], q.(items := q.items[k..]))
  {
    assert (taken + q.items[..k]) + q.items[k..] == taken + q.items;
  }

  lemma QueueStepKeepsInv(first: nat, taken: seq<Json>, q: Queue, step: QueueStep)
    requires QueueInv(first, taken, q)
    requires IsObservation(step)
    ensures var (t, r) := StepQueue(taken, q, step); QueueInv(first, t, r) && taken <= t
  {
    match step
    case Observe(id, body) => EnqueueKeepsInv(first, taken, q, BaseEvent(q, id, body));
    case Drain(limit, stamp) =>
      var k := Min(limit, |q.items|);
      TakeKeepsInv(first, taken, q, k);
      PendingLossKeepsInv(first, taken + q.items[..k], q.(items := q.items[k..]), stamp);
    case Flush(moved, _, stamp) =>
      var k := Min(moved, |q.items|);
      TakeKeepsInv(first, taken, q, k);
      PendingLossKeepsInv(first, taken + q.items[..k], q.(items := q.items[k..]), stamp);
  }

  /** What an observation does: it joins the end of the accepted history if there is room, and is counted as lost if not. */
  lemma ObservationIsQueuedIff(taken: seq<Json>, q: Queue, id: string, body: Body)
    ensures var (t, r) := StepQueue(taken, q, Observe(id, body));
      var e := Json(Some("activity.event/v1"), Some(id), Some(q.nextSequence), Typed(body));
      && t == taken
      && (|q.items| < q.capacity ==> r.items == q.items + [e] && r.health.dropped == q.health.dropped && r.pendingLoss == q.pendingLoss)
      && (|q.items| >= q.capacity ==>
            r.items == q.items && r.health.dropped == q.health.dropped + 1 && r.pendingLoss == q.pendingLoss + 1
            && r.nextSequence == q.nextSequence)
  {
  }

  /**
   * What a drain takes: a prefix of the queue, of the length asked for unless the queue is shorter; what
   * it leaves is the rest, followed by at most one event that reports the pending loss.
   */
  lemma DrainTakes(q: Queue, limit: nat, stamp: Stamp)
    requires q.capacity > 0 && |q.items| <= q.capacity
    ensures var (out, r) := DrainQueue(q, limit, stamp);
      && |out| <= limit && (|out| < limit ==> |out| == |q.items|)
      && out + r.items[..|q.items| - |out|] == q.items
      && (forall i | |q.items| - |out| <= i < |r.items| :: i == |q.items| - |out| && Lost(r.items[i]) == q.pendingLoss > 0)
      && (q.pendingLoss > 0 && ((limit > 0 && q.items != []) || |q.items| < q.capacity) ==>
            r.pendingLoss == 0 && |r.items| == |q.items| - |out| + 1)
  {
    var k := Min(limit, |q.items|);
    var rest := q.(items := q.items[k..]);
    assert q.items[..k] + q.items[k..] == q.items;
    if q.pendingLoss > 0 && |rest.items| < q.capacity {
      var e := PendingLossIsQueued(rest, stamp);
      assert (rest.items + [e])[..|rest.items|] == rest.items;
    } else {
      assert rest.items[..|rest.items|] == rest.items;
    }
  }

  /** The deepest the queue gets in a run. */
  function PeakDepth(taken: seq<Json>, q: Queue, steps: seq<QueueStep>): nat
    decreases |steps|
  {
    if steps == [] then |q.items|
    else
      var (t, r) := StepQueue(taken, q, steps[0]);
      var rest := PeakDepth(t, r, steps[1..]);
      if |q.items| > rest then |q.items| else rest
  }

  lemma StepDepth(taken: seq<Json>, q: Queue, step: QueueStep)
    requires |q.items| <= q.health.maxQueueDepth
    ensures var (t, r) := StepQueue(taken, q, step);
      r.health.maxQueueDepth == if |r.items| > q.health.maxQueueDepth then |r.items| else q.health.maxQueueDepth
  {
  }

  /** The depth a collector reports is the deepest its queue has been. */
  lemma {:induction false} ReportedDepthIsPeak(taken: seq<Json>, q: Queue, steps: seq<QueueStep>)
    requires |q.items| <= q.health.maxQueueDepth
    ensures var peak := PeakDepth(taken, q, steps);
      RunQueue(taken, q, steps).1.health.maxQueueDepth == if peak > q.health.maxQueueDepth then peak else q.health.maxQueueDepth
    decreases |steps|
  {
    if steps != [] {
      StepDepth(taken, q, steps[0]);
      var (t, r) := StepQueue(taken, q, steps[0]);
      hide StepQueue;
      ReportedDepthIsPeak(t, r, steps[1..]);
    }
  }

  /**
   * Over every run: drops equal the pending loss plus everything reported in accepted loss events,
   * accepted equals removed plus queued, the depth never exceeds the capacity, and accepted
   * sequences are consecutive across drops.
   */
  lemma {:induction false} QueueRunKeepsInv(first: nat, taken: seq<Json>, q: Queue, steps: seq<QueueStep>)
    requires QueueInv(first, taken, q)
    requires forall step | step in steps :: IsObservation(step)
    ensures var (t, r) := RunQueue(taken, q, steps); QueueInv(first, t, r) && taken <= t
    decreases |steps|
  {
    if steps != [] {
      QueueStepKeepsInv(first, taken, q, steps[0]);
      var (t, r) := StepQueue(taken, q, steps[0]);
      QueueRunKeepsInv(first, t, r, steps[1..]);
    }
  }

  lemma NewQueueInv(capacity: nat, nextSequence: nat)
    requires capacity > 0
    ensures var q := NewQueue(capacity, nextSequence);
      && QueueInv(q.nextSequence, [], q)
      && q.items == [] && q.nextSequence == (if nextSequence == 0 then 1 else nextSequence) && q.health.dropped == 0
  {
  }

  // ---------- flushing to the spool ----------

  datatype Flushed = Flushed(queue: Queue, spool: SpoolRun, outcome: Result<nat, SpoolError>)

  /** Appends from the front until the limit, an empty queue or the first spool error. */
  function FlushLoop(cfg: SpoolConfig, q: Queue, s: SpoolRun, limit: nat, done: nat): Flushed
    decreases limit - done
  {
    if done >= limit || q.items == [] then Flushed(q, s, Success(done))
    else
      match AppendOutcome(cfg, s.files, q.items[0], false)
      case Failure(error) => Flushed(q, s, Failure(error))
      case Success(_) =>
        FlushLoop(cfg, q.(items := q.items[1..]), WriteStep(cfg, s, q.items[0], false), limit, done + 1)
  }

  /** A spool error returns before the pending loss is reported. */
  function FlushQueue(cfg: SpoolConfig, q: Queue, s: SpoolRun, limit: nat, stamp: Stamp): Flushed {
    var f := FlushLoop(cfg, q, s, limit, 0);
    if f.outcome.Failure? then f else f.(queue := EnqueuePendingLoss(f.queue, stamp))
  }

  /** The collector and the spool it was built from. */
  datatype Agent = Agent(queue: Queue, spool: SpoolRun)

  predicate IdUnused(a: Agent, id: string) {
    && (forall v | v in a.queue.items :: v.eventId != Some(id))
    && (forall v | v in a.spool.files.lines :: v.eventId != Some(id))
  }

  ghost predicate DistinctIds(items: seq<Json>) {
    forall i, j | 0 <= i < j < |items| :: items[i].eventId != items[j].eventId
  }

  /** Queued events carry watermark+1, watermark+2, ...; an empty queue is about to hand out watermark+1. */
  ghost predicate InStep(q: Queue, mark: nat) {
    && q.nextSequence == mark + 1 + |q.items|
    && q.nextSequence <= U64_MAX
    && (forall i | 0 <= i < |q.items| ::
          ValidRecord(q.items[i]) && q.items[i].collectorSequence == Some(mark + 1 + i))
  }

  ghost predicate Coupled(cfg: SpoolConfig, a: Agent) {
    && SpoolInv(cfg, a.spool)
    && !Torn(a.spool.files)
    && InStep(a.queue, a.spool.files.mark)
    && DistinctIds(a.queue.items)
    && (forall x, v | x in a.spool.files.lines && v in a.queue.items :: x.eventId != v.eventId)
  }

  /** A coupled front event is either written or refused for lack of space; nothing else can happen. */
  lemma FrontIsNextRecord(cfg: SpoolConfig, a: Agent)
    requires Coupled(cfg, a)
    requires a.queue.items != []
    ensures var verdict := Judge(cfg, a.spool.files, a.queue.items[0]);
      verdict == Write || (verdict.Refuse? && verdict.error.Full?)
  {
    var f, e := a.spool.files, a.queue.items[0];
    RecordsAreLines(cfg, f);
    forall x | x in f.lines ensures !Clashes(x, e) {
      var i :| 0 <= i < |f.lines| && f.lines[i] == x;
      assert e in a.queue.items;
    }
  }

  /** The agent after its front event has been written to the spool. */
  function Popped(cfg: SpoolConfig, a: Agent): Agent
    requires a.queue.items != []
  {
    Agent(a.queue.(items := a.queue.items[1..]), WriteStep(cfg, a.spool, a.queue.items[0], false))
  }

  lemma PoppedQueueInStep(q: Queue, mark: nat)
    requires InStep(q, mark) && DistinctIds(q.items) && q.items != []
    ensures InStep(q.(items := q.items[1..]), mark + 1) && DistinctIds(q.items[1..])
    ensures mark + 1 <= U64_MAX
    ensures forall v | v in q.items[1..] :: v in q.items && v.eventId != q.items[0].eventId
  {
    var rest := q.items[1..];
    forall i | 0 <= i < |rest| ensures rest[i] == q.items[i + 1] {}
  }

  lemma PoppedStaysCoupled(cfg: SpoolConfig, a: Agent)
    requires Coupled(cfg, a)
    requires a.queue.items != []
    requires Judge(cfg, a.spool.files, a.queue.items[0]) == Write
    ensures Coupled(cfg, Popped(cfg, a))
    ensures Popped(cfg, a).spool.written == a.spool.written + [a.queue.items[0]]
  {
    hide FilesInv, BoundOnce, Covers, InStep, DistinctIds, ValidRecord, Torn, Clashes, SequenceOf;
    var e := a.queue.items[0];
    WriteFacts(cfg, a.spool.files, e);
    PoppedQueueInStep(a.queue, a.spool.files.mark);
    PoppedSpool(cfg, a.spool, e);
    assert forall x | x in a.spool.files.lines + [e] :: x in a.spool.files.lines || x == e;
  }

  lemma PoppedSpool(cfg: SpoolConfig, s: SpoolRun, e: Json)
    requires SpoolInv(cfg, s)
    requires Judge(cfg, s.files, e) == Write
    ensures SpoolInv(cfg, WriteStep(cfg, s, e, false)) && !Torn(WriteStep(cfg, s, e, false).files)
  {
    WriteKeepsInv(cfg, s, e, false);
    WriteKeepsFiles(cfg, s.files, e, false);
  }

  /** One turn of the flush loop on a coupled collector. */
  lemma FlushTurn(cfg: SpoolConfig, a: Agent)
    requires Coupled(cfg, a)
    requires a.queue.items != []
    ensures var outcome := AppendOutcome(cfg, a.spool.files, a.queue.items[0], false);
      && (outcome.Failure? ==> outcome.error.Full?)
      && (outcome.Success? ==>
            && Coupled(cfg, Popped(cfg, a))
            && Popped(cfg, a).spool.written + Popped(cfg, a).queue.items == a.spool.written + a.queue.items)
  {
    hide Coupled, Judge, WriteStep;
    FrontIsNextRecord(cfg, a);
    if Judge(cfg, a.spool.files, a.queue.items[0]) == Write {
      PoppedStaysCoupled(cfg, a);
      var items := a.queue.items;
      assert (a.spool.written + [items[0]]) + items[1..] == a.spool.written + items;
    }
  }

  /**
   * Flushing keeps a coupled collector coupled, can only stop early because the spool is full, and
   * only moves events: the written history followed by the queue is unchanged.
   */
  lemma {:induction false} FlushLoopStaysCoupled(cfg: SpoolConfig, a: Agent, limit: nat, done: nat)
    requires Coupled(cfg, a)
    ensures var f := FlushLoop(cfg, a.queue, a.spool, limit, done);
      && Coupled(cfg, Agent(f.queue, f.spool))
      && (f.outcome.Failure? ==> f.outcome.error.Full?)
      && f.spool.written + f.queue.items == a.spool.written + a.queue.items
    decreases limit - done
  {
    if done < limit && a.queue.items != [] {
      FlushTurn(cfg, a);
      if AppendOutcome(cfg, a.spool.files, a.queue.items[0], false).Success? {
        FlushLoopStaysCoupled(cfg, Popped(cfg, a), limit, done + 1);
      }
    }
  }

  /** A flush removes a prefix of the queue; an error leaves the event it stopped at in front. */
  lemma {:induction false} FlushPopsPrefix(cfg: SpoolConfig, q: Queue, s: SpoolRun, limit: nat, done: nat) returns (k: nat)
    requires done <= limit
    ensures k <= |q.items|
    ensures var f := FlushLoop(cfg, q, s, limit, done);
      && f.queue == q.(items := q.items[k..])
      && (f.outcome.Success? ==> f.outcome.value == done + k && k == Min(limit - done, |q.items|))
      && (f.outcome.Failure? ==> k < Min(limit - done, |q.items|))
    decreases limit - done
  {
    k := 0;
    if done < limit && q.items != [] && AppendOutcome(cfg, s.files, q.items[0], false).Success? {
      var q' := q.(items := q.items[1..]);
      var rest := FlushPopsPrefix(cfg, q', WriteStep(cfg, s, q.items[0], false), limit, done + 1);
      k := rest + 1;
      assert q'.items[rest..] == q.items[k..];
    }
  }

  /** Any flush, into any spool, is a queue step of `RunQueue`; so loss conservation covers flushing collectors. */
  lemma FlushIsQueueStep(cfg: SpoolConfig, taken: seq<Json>, q: Queue, s: SpoolRun, limit: nat, stamp: Stamp) returns (k: nat)
    ensures var f := FlushQueue(cfg, q, s, limit, stamp);
      f.queue == StepQueue(taken, q, Flush(k, f.outcome.Failure?, stamp)).1
  {
    k := FlushPopsPrefix(cfg, q, s, limit, 0);
  }

  lemma EnqueueStaysCoupled(cfg: SpoolConfig, a: Agent, id: string, body: Body)
    requires Coupled(cfg, a)
    requires IdUnused(a, id)
    requires a.queue.nextSequence < U64_MAX
    ensures Coupled(cfg, a.(queue := Enqueue(a.queue, BaseEvent(a.queue, id, body))))
  {
    var e := BaseEvent(a.queue, id, body);
    var items := a.queue.items + [e];
    assert forall v | v in items :: v in a.queue.items || v == e;
    forall i, j | 0 <= i < j < |items| ensures items[i].eventId != items[j].eventId {
      assert items[i] in a.queue.items;
    }
  }

  datatype AgentStep =
    | Observed(id: string, body: Body)
    | FlushTo(limit: nat, stamp: Stamp)
    | Acked(through: nat)
    | Crashed(torn: bool, capacity: nat)   // the process dies, possibly inside an append, and is restarted

  /** Identifiers are fresh and the 64-bit sequence space is not exhausted. */
  ghost predicate Enabled(a: Agent, step: AgentStep) {
    match step
    case Observed(id, _) => IdUnused(a, id) && a.queue.nextSequence < U64_MAX
    case FlushTo(_, stamp) => IdUnused(a, stamp.id) && a.queue.nextSequence < U64_MAX
    case Acked(_) => true
    case Crashed(_, capacity) => capacity > 0
  }

  /** A restart reopens the spool and builds an empty collector from it. */
  function Restart(cfg: SpoolConfig, s: SpoolRun, capacity: nat): Agent {
    var reopened := Take(cfg, s, Reopen);
    Agent(NewQueue(capacity, if NextSequence(reopened.files).Success? then NextSequence(reopened.files).value else 1), reopened)
  }

  function StepAgent(cfg: SpoolConfig, a: Agent, step: AgentStep): Agent {
    match step
    case Observed(id, body) => a.(queue := Enqueue(a.queue, BaseEvent(a.queue, id, body)))
    case FlushTo(limit, stamp) =>
      var f := FlushQueue(cfg, a.queue, a.spool, limit, stamp);
      Agent(f.queue, f.spool)
    case Acked(n) => a.(spool := Take(cfg, a.spool, Acknowledge(n)))
    case Crashed(torn, capacity) =>
      var s := if torn && a.queue.items != [] then Take(cfg, a.spool, TornAppend(a.queue.items[0])) else a.spool;
      Restart(cfg, s, capacity)
  }

  lemma FlushStaysCoupled(cfg: SpoolConfig, a: Agent, limit: nat, stamp: Stamp)
    requires Coupled(cfg, a)
    requires Enabled(a, FlushTo(limit, stamp))
    ensures Coupled(cfg, StepAgent(cfg, a, FlushTo(limit, stamp)))
  {
    hide Coupled, FlushLoop, Enqueue, IdUnused;
    FlushLoopStaysCoupled(cfg, a, limit, 0);
    var f := FlushLoop(cfg, a.queue, a.spool, limit, 0);
    if f.outcome.Success? && f.queue.pendingLoss > 0 && |f.queue.items| < f.queue.capacity {
      FlushKeepsIdUnused(cfg, a, limit, stamp.id);
      TakenLossStaysCoupled(cfg, Agent(f.queue, f.spool), stamp.id);
      var mid := Agent(f.queue.(pendingLoss := 0), f.spool);
      EnqueueStaysCoupled(cfg, mid, stamp.id, LossBody(stamp.scope, stamp.now, f.queue.pendingLoss));
    }
  }

  lemma TakenLossStaysCoupled(cfg: SpoolConfig, a: Agent, id: string)
    requires Coupled(cfg, a) && IdUnused(a, id)
    ensures var b := a.(queue := a.queue.(pendingLoss := 0)); Coupled(cfg, b) && IdUnused(b, id)
  {
    hide SpoolInv, DistinctIds;
  }

  lemma FlushKeepsIdUnused(cfg: SpoolConfig, a: Agent, limit: nat, id: string)
    requires Coupled(cfg, a)
    requires IdUnused(a, id)
    ensures var f := FlushLoop(cfg, a.queue, a.spool, limit, 0);
      IdUnused(Agent(f.queue, f.spool), id) && f.queue.nextSequence == a.queue.nextSequence
  {
    var k := FlushPopsPrefix(cfg, a.queue, a.spool, limit, 0);
    FlushedLines(cfg, a, limit, 0);
  }

  /** Whatever a flush leaves in the file was there before or came from the queue. */
  lemma {:induction false} FlushedLines(cfg: SpoolConfig, a: Agent, limit: nat, done: nat)
    ensures forall v | v in FlushLoop(cfg, a.queue, a.spool, limit, done).spool.files.lines ::
      v in a.spool.files.lines || v in a.queue.items
    decreases limit - done
  {
    if done < limit && a.queue.items != [] && AppendOutcome(cfg, a.spool.files, a.queue.items[0], false).Success? {
      FlushedLines(cfg, Popped(cfg, a), limit, done + 1);
    }
  }

  lemma RestartIsCoupled(cfg: SpoolConfig, s: SpoolRun, capacity: nat)
    requires SpoolInv(cfg, s) && cfg.maxBytes > 0 && capacity > 0
    requires Top(s.files) < U64_MAX
    ensures Coupled(cfg, Restart(cfg, s, capacity))
  {
    ReopenKeepsInv(cfg, s);
    RecordsAreLines(cfg, Take(cfg, s, Reopen).files);
  }

  lemma AckStaysCoupled(cfg: SpoolConfig, a: Agent, n: nat)
    requires Coupled(cfg, a)
    ensures Coupled(cfg, StepAgent(cfg, a, Acked(n)))
  {
    hide FilesInv, BoundOnce, Covers, InStep, DistinctIds;
    AcknowledgeKeepsFiles(cfg, a.spool.files, n);
    StepKeepsInv(cfg, a.spool, Acknowledge(n));
  }

  lemma CrashStaysCoupled(cfg: SpoolConfig, a: Agent, torn: bool, capacity: nat)
    requires Coupled(cfg, a) && cfg.maxBytes > 0 && capacity > 0
    ensures Coupled(cfg, StepAgent(cfg, a, Crashed(torn, capacity)))
  {
    hide FilesInv, BoundOnce, Covers, DistinctIds, Restart, Judge;
    if torn && a.queue.items != [] {
      var e := a.queue.items[0];
      StepKeepsInv(cfg, a.spool, TornAppend(e));
      if Judge(cfg, a.spool.files, e) == Write {
        WriteKeepsFiles(cfg, a.spool.files, e, true);
      }
      RestartIsCoupled(cfg, Take(cfg, a.spool, TornAppend(e)), capacity);
    } else {
      RestartIsCoupled(cfg, a.spool, capacity);
    }
  }

  lemma AgentStepStaysCoupled(cfg: SpoolConfig, a: Agent, step: AgentStep)
    requires Coupled(cfg, a) && cfg.maxBytes > 0
    requires Enabled(a, step)
    ensures Coupled(cfg, StepAgent(cfg, a, step))
  {
    hide Coupled;
    match step
    case Observed(id, body) => EnqueueStaysCoupled(cfg, a, id, body);
    case FlushTo(limit, stamp) => FlushStaysCoupled(cfg, a, limit, stamp);
    case Acked(n) => AckStaysCoupled(cfg, a, n);
    case Crashed(torn, capacity) => CrashStaysCoupled(cfg, a, torn, capacity);
  }

  lemma CoupledFront(cfg: SpoolConfig, a: Agent)
    requires Coupled(cfg, a)
    ensures a.queue.items != [] ==> a.queue.items[0].collectorSequence == Some(a.spool.files.mark + 1)
    ensures a.queue.items == [] ==> a.queue.nextSequence == a.spool.files.mark + 1
  {
  }

  function RunAgent(cfg: SpoolConfig, a: Agent, steps: seq<AgentStep>): Agent
    decreases |steps|
  {
    if steps == [] then a else RunAgent(cfg, StepAgent(cfg, a, steps[0]), steps[1..])
  }

  ghost predicate EnabledRun(cfg: SpoolConfig, a: Agent, steps: seq<AgentStep>)
    decreases |steps|
  {
    steps == [] || (Enabled(a, steps[0]) && EnabledRun(cfg, StepAgent(cfg, a, steps[0]), steps[1..]))
  }

  /**
   * Over every run of observations, flushes, acknowledgements and crashes, the collector stays in
   * step with its spool, so a flush can only ever fail because the spool is full, and the event
   * it failed on is still the next one the spool expects.
   */
  lemma {:induction false} AgentRunStaysCoupled(cfg: SpoolConfig, a: Agent, steps: seq<AgentStep>, limit: nat, stamp: Stamp)
    requires Coupled(cfg, a) && cfg.maxBytes > 0
    requires EnabledRun(cfg, a, steps)
    ensures var last := RunAgent(cfg, a, steps);
      && Coupled(cfg, last)
      && (last.queue.items != [] ==> last.queue.items[0].collectorSequence == Some(last.spool.files.mark + 1))
      && (last.queue.items == [] ==> last.queue.nextSequence == last.spool.files.mark + 1)
      && var outcome := FlushQueue(cfg, last.queue, last.spool, limit, stamp).outcome;
         outcome.Failure? ==> outcome.error.Full?
    decreases |steps|
  {
    hide Coupled, FlushLoop, Enabled;
    if steps == [] {
      FlushLoopStaysCoupled(cfg, a, limit, 0);
      CoupledFront(cfg, a);
    } else {
      AgentStepStaysCoupled(cfg, a, steps[0]);
      AgentRunStaysCoupled(cfg, StepAgent(cfg, a, steps[0]), steps[1..], limit, stamp);
    }
  }

  /**
   * The same from the first start: a collector built from an empty spool stays in step with it over every
   * run, and the sequences it ever got written are exactly 1..watermark, across drops, full spools and restarts.
   */
  lemma AgentRunFromEmptySpool(cfg: SpoolConfig, capacity: nat, steps: seq<AgentStep>, limit: nat, stamp: Stamp)
    requires cfg.maxBytes > 0 && capacity > 0
    requires EnabledRun(cfg, Restart(cfg, EMPTY_SPOOL, capacity), steps)
    ensures var last := RunAgent(cfg, Restart(cfg, EMPTY_SPOOL, capacity), steps);
      && (last.queue.items != [] ==> last.queue.items[0].collectorSequence == Some(last.spool.files.mark + 1))
      && (last.queue.items == [] ==> last.queue.nextSequence == last.spool.files.mark + 1)
      && Covers(last.spool.written, last.spool.files.mark) && BoundOnce(last.spool.written)
      && var outcome := FlushQueue(cfg, last.queue, last.spool, limit, stamp).outcome;
         outcome.Failure? ==> outcome.error.Full?
  {
    RestartIsCoupled(cfg, EMPTY_SPOOL, capacity);
    AgentRunStaysCoupled(cfg, Restart(cfg, EMPTY_SPOOL, capacity), steps, limit, stamp);
    hide RunAgent, Restart, FlushQueue, Covers, BoundOnce, FilesInv;
  }

  // ---------- the collector object ----------

  class ActivityCollector {
    const capacity: nat
    var items: seq<Json>
    var nextSequence: nat
    var pendingLoss: nat
    var health: CollectorHealth
    ghost var first: nat
    ghost var taken: seq<Json>

    ghost function State(): Queue reads this {
      Queue(capacity, items, nextSequence, pendingLoss, health)
    }

    ghost predicate Valid() reads this {
      QueueInv(first, taken, State())
    }

    constructor (capacity: nat, next: nat)
      requires capacity > 0
      ensures State() == NewQueue(capacity, next) && Valid() && taken == []
    {
      this.capacity := capacity;
      items, pendingLoss, health := [], 0, CollectorHealth(0, 0, 0);
      nextSequence := if next > 1 then next else 1;
      first, taken := if next > 1 then next else 1, [];
    }

    method EnqueueEvent(event: Json)
      requires Valid()
      requires event.collectorSequence == Some(nextSequence) && Lost(event) == 0
      modifies this
      ensures Valid() && first == old(first) && taken == old(taken)
      ensures State() == Enqueue(old(State()), event)
    {
      EnqueueKeepsInv(first, taken, State(), event);
      Push(event);
    }

    method Push(event: Json)
      modifies this
      ensures State() == Enqueue(old(State()), event)
      ensures first == old(first) && taken == old(taken)
    {
      if |items| >= capacity {
        health := health.(dropped := health.dropped + 1);
        pendingLoss := pendingLoss + 1;
        return;
      }
      nextSequence := nextSequence + 1;
      items := items + [event];
      health := health.(accepted := health.accepted + 1,
                        maxQueueDepth := if |items| > health.maxQueueDepth then |items| else health.maxQueueDepth);
    }

    method ReportPendingLoss(stamp: Stamp)
      requires Valid()
      modifies this
      ensures Valid() && first == old(first) && taken == old(taken)
      ensures State() == EnqueuePendingLoss(old(State()), stamp)
    {
      PendingLossKeepsInv(first, taken, State(), stamp);
      if pendingLoss == 0 || |items| >= capacity {
        return;
      }
      var lost := pendingLoss;
      pendingLoss := 0;
      Push(Json(Some(SCHEMA_VERSION), Some(stamp.id), Some(nextSequence), Typed(LossBody(stamp.scope, stamp.now, lost))));
    }

    method DrainEvents(limit: nat, stamp: Stamp) returns (events: seq<Json>)
      requires Valid()
      modifies this
      ensures Valid() && first == old(first) && taken == old(taken) + events
      ensures (events, State()) == DrainQueue(old(State()), limit, stamp)
    {
      hide QueueInv;
      ghost var start := State();
      events := [];
      while |events| < limit && items != []
        invariant |events| <= limit && |events| <= |start.items|
        invariant events == start.items[..|events|]
        invariant State() == start.(items := start.items[|events|..])
        invariant first == old(first) && taken == old(taken)
        decreases |items|
      {
        events := events + [items[0]];
        items := items[1..];
      }
      TakeKeepsInv(first, taken, start, |events|);
      taken := taken + events;
      ReportPendingLoss(stamp);
    }

    /** Flushes into a spool whose written history is `before`. */
    method FlushToSpool(spool: ActivitySpool, limit: nat, stamp: Stamp, ghost before: seq<Json>)
      returns (r: Result<nat, SpoolError>)
      requires Valid()
      modifies this, spool.disk
      ensures Valid() && first == old(first)
      ensures var f := FlushQueue(spool.cfg, old(State()), SpoolRun(old(spool.disk.Files()), before), limit, stamp);
        f.queue == State() && f.spool.files == spool.disk.Files() && f.outcome == r
    {
      ghost var run := SpoolRun(spool.disk.Files(), before);
      ghost var goal := FlushLoop(spool.cfg, State(), run, limit, 0);
      var written: nat := 0;
      while written < limit && items != []
        invariant written <= limit
        invariant Valid() && first == old(first)
        invariant run.files == spool.disk.Files()
        invariant FlushLoop(spool.cfg, State(), run, limit, written) == goal
        decreases |items|
      {
        var event := items[0];
        var appended := spool.AppendRecord(event, false);
        if appended.Failure? {
          return Failure(appended.error);
        }
        TakeKeepsInv(first, taken, State(), 1);
        assert items[..1] == [event];
        run := WriteStep(spool.cfg, run, event, false);
        taken := taken + [event];
        items := items[1..];
        written := written + 1;
      }
      ReportPendingLoss(stamp);
      r := Success(written);
    }
  }
}
