/**
 * The agent's persistent output channel across reconnects: sessions send into one channel, each
 * connection's forwarder borrows the receiver, and hands it back when the connection ends.
 */
module OutputChannels {
  import opened Outcomes

  const CHANNEL_CAPACITY: nat := 1000

  datatype Phase =
    | Idle        // between connections, `run` holds the client
    | Streaming   // inside `stream_loop`
    | Closed      // `stream_loop` has returned, the receiver is awaited

  /** What became of a message taken from the channel, and on which connection. */
  datatype Fate =
    | Handed(conn: nat, message: string)
    | Lost(conn: nat, message: string)

  /** The running forwarder, with the message it has taken but not yet passed on. */
  datatype Forwarder = Forwarder(hand: Option<string>)

  /**
   * `tx` numbers the channel new sessions send into, `rx` is the client's own receiver, `mailbox`
   * the hand-back slot, `awaiting` says the client holds the other end of that slot. `buffer`,
   * `sent` and `log` belong to channel `tx`; `dropped` collects sends into a channel without receiver.
   */
  datatype Agent = Agent(
    tx: nat,
    rx: Option<nat>,
    phase: Phase,
    conn: nat,
    forwarder: Option<Forwarder>,
    mailbox: Option<nat>,
    awaiting: bool,
    buffer: seq<string>,
    sent: seq<string>,
    log: seq<Fate>,
    dropped: seq<string>)

  const NEW_AGENT := Agent(0, Some(0), Idle, 0, None, None, false, [], [], [], [])

  datatype Step =
    | SessionSends(channel: nat, message: string)   // through the sender captured when it was started
    | StreamStarts
    | ForwarderTakes
    | ForwarderHands
    | ForwarderLoses      // the send to a dead connection fails with a message in hand
    | ForwarderStops
    | ForwarderDies       // panics or wedges: the receiver never comes back
    | StreamEnds
    | Recovers
    | RecoversByReplacing // the last resort after a dead forwarder

  /** Nobody holds the receiver of the current channel any more. */
  predicate Orphaned(a: Agent) {
    a.phase != Idle && a.forwarder.None? && a.mailbox.None?
  }

  /** When a step can happen. */
  predicate Enabled(a: Agent, step: Step) {
    match step
    case SessionSends(channel, _) => channel <= a.tx && (channel == a.tx && !Orphaned(a) ==> |a.buffer| < CHANNEL_CAPACITY)
    case StreamStarts => a.phase == Idle
    case ForwarderTakes => a.forwarder.Some? && a.forwarder.value.hand.None? && a.buffer != []
    case ForwarderHands => a.forwarder.Some? && a.forwarder.value.hand.Some?
    case ForwarderLoses => a.forwarder.Some? && a.forwarder.value.hand.Some?
    case ForwarderStops => a.forwarder.Some? && a.forwarder.value.hand.None?
    case ForwarderDies => a.forwarder.Some?
    case StreamEnds => a.phase == Streaming
    case Recovers => a.phase == Closed && a.mailbox.Some?
    case RecoversByReplacing => a.phase == Closed && Orphaned(a)
  }

  function Hand(a: Agent): seq<string> {
    match a.forwarder
    case Some(Forwarder(Some(m))) => [m]
    case _ => []
  }

  function Next(a: Agent, step: Step): Agent {
    match step
    case SessionSends(channel, m) =>
      if channel == a.tx && !Orphaned(a) then a.(buffer := a.buffer + [m], sent := a.sent + [m])
      else a.(dropped := a.dropped + [m])
    case StreamStarts =>
      if a.rx.None? then a   // "Output receiver already taken"
      else a.(rx := None, phase := Streaming, conn := a.conn + 1, forwarder := Some(Forwarder(None)), mailbox := None, awaiting := true)
    case ForwarderTakes =>
      if a.buffer == [] then a
      else a.(forwarder := Some(Forwarder(Some(a.buffer[0]))), buffer := a.buffer[1..])
    case ForwarderHands =>
      if Hand(a) == [] then a
      else a.(forwarder := Some(Forwarder(None)), log := a.log + [Handed(a.conn, Hand(a)[0])])
    case ForwarderLoses =>
      if Hand(a) == [] then a
      else a.(forwarder := None, mailbox := Some(a.tx), log := a.log + [Lost(a.conn, Hand(a)[0])])
    case ForwarderStops => a.(forwarder := None, mailbox := Some(a.tx))
    case ForwarderDies => a.(forwarder := None)
    case StreamEnds => a.(phase := Closed)
    case Recovers => a.(rx := a.mailbox, mailbox := None, awaiting := false, phase := Idle)
    case RecoversByReplacing =>
      a.(tx := a.tx + 1, rx := Some(a.tx + 1), mailbox := None, awaiting := false, phase := Idle,
         buffer := [], sent := [], log := [])
  }

  function Run(a: Agent, steps: seq<Step>): Agent
    decreases |steps|
  {
    if steps == [] then a else Run(Next(a, steps[0]), steps[1..])
  }

  predicate EnabledRun(a: Agent, steps: seq<Step>)
    decreases |steps|
  {
    steps == [] || (Enabled(a, steps[0]) && EnabledRun(Next(a, steps[0]), steps[1..]))
  }

  // ---------- what every run keeps ----------

  function Messages(log: seq<Fate>): seq<string> {
    seq(|log|, i requires 0 <= i < |log| => log[i].message)
  }

  /** Connections follow each other, and a lost message is the last one its connection took. */
  ghost predicate Orderly(log: seq<Fate>) {
    forall i, j | 0 <= i < j < |log| ::
      log[i].conn <= log[j].conn && (log[i].Lost? ==> log[i].conn < log[j].conn)
  }

  function Owners(a: Agent): nat {
    (if a.rx.Some? then 1 else 0) + (if a.forwarder.Some? then 1 else 0) + (if a.mailbox.Some? then 1 else 0)
  }

  /** Who holds the receiver in each phase. */
  ghost predicate Custody(a: Agent) {
    && (a.phase == Idle ==> a.rx == Some(a.tx) && a.forwarder.None? && a.mailbox.None? && !a.awaiting)
    && (a.phase != Idle ==> a.rx.None? && a.awaiting && (a.forwarder.None? || a.mailbox.None?))
    && (a.mailbox.Some? ==> a.mailbox.value == a.tx)
  }

  ghost predicate Ledger(a: Agent) {
    && (!Orphaned(a) ==> a.sent == Messages(a.log) + Hand(a) + a.buffer)
    && Orderly(a.log)
    && (forall f | f in a.log :: f.conn <= a.conn)
    && (a.forwarder.Some? ==> forall f | f in a.log && f.Lost? :: f.conn < a.conn)
  }

  ghost predicate Inv(a: Agent) {
    Custody(a) && Ledger(a)
  }

  lemma StepKeepsCustody(a: Agent, step: Step)
    requires Custody(a) && Enabled(a, step)
    ensures Custody(Next(a, step))
  {
  }

  lemma MessagesAppend(log: seq<Fate>, f: Fate)
    ensures Messages(log + [f]) == Messages(log) + [f.message]
  {
  }

  lemma OrderlyAppend(log: seq<Fate>, f: Fate)
    requires Orderly(log)
    requires forall g | g in log :: g.conn <= f.conn && (g.Lost? ==> g.conn < f.conn)
    ensures Orderly(log + [f])
  {
    var all := log + [f];
    forall i, j | 0 <= i < j < |all|
      ensures all[i].conn <= all[j].conn && (all[i].Lost? ==> all[i].conn < all[j].conn)
    {
      assert all[i] in log;
    }
  }

  lemma HandsKeepsLedger(a: Agent)
    requires Inv(a) && Enabled(a, ForwarderHands)
    ensures Ledger(Next(a, ForwarderHands))
  {
    MessagesAppend(a.log, Handed(a.conn, Hand(a)[0]));
    OrderlyAppend(a.log, Handed(a.conn, Hand(a)[0]));
    hide Messages, Orderly;
  }

  lemma LosesKeepsLedger(a: Agent)
    requires Inv(a) && Enabled(a, ForwarderLoses)
    ensures Ledger(Next(a, ForwarderLoses))
  {
    MessagesAppend(a.log, Lost(a.conn, Hand(a)[0]));
    OrderlyAppend(a.log, Lost(a.conn, Hand(a)[0]));
    hide Messages, Orderly;
  }

  lemma QueueStepKeepsLedger(a: Agent, step: Step)
    requires Inv(a) && Enabled(a, step)
    requires step.SessionSends? || step.ForwarderTakes?
    ensures Ledger(Next(a, step))
  {
    hide Messages, Orderly;
    if step.ForwarderTakes? {
      assert a.buffer == [a.buffer[0]] + a.buffer[1..];
    }
  }

  lemma StepKeepsLedger(a: Agent, step: Step)
    requires Inv(a) && Enabled(a, step)
    ensures Ledger(Next(a, step))
  {
    assert Messages([]) == [] && Orderly([]);
    hide Messages, Orderly;
    match step
    case SessionSends(_, _) => QueueStepKeepsLedger(a, step);
    case ForwarderTakes => QueueStepKeepsLedger(a, step);
    case ForwarderHands => HandsKeepsLedger(a);
    case ForwarderLoses => LosesKeepsLedger(a);
    case _ =>
  }

  lemma {:induction false} RunKeepsInv(a: Agent, steps: seq<Step>)
    requires Inv(a) && EnabledRun(a, steps)
    ensures Inv(Run(a, steps))
    decreases |steps|
  {
    if steps != [] {
      StepKeepsCustody(a, steps[0]);
      StepKeepsLedger(a, steps[0]);
      RunKeepsInv(Next(a, steps[0]), steps[1..]);
    }
  }

  function Replacements(steps: seq<Step>): nat {
    if steps == [] then 0 else (if steps[0].RecoversByReplacing? then 1 else 0) + Replacements(steps[1..])
  }

  predicate NeverDies(steps: seq<Step>) {
    forall step | step in steps :: !step.ForwarderDies?
  }

  /** The sender changes exactly as often as the last resort is taken. */
  lemma {:induction false} SenderReplacedOnlyByLastResort(a: Agent, steps: seq<Step>)
    ensures Run(a, steps).tx == a.tx + Replacements(steps)
    decreases |steps|
  {
    if steps != [] {
      SenderReplacedOnlyByLastResort(Next(a, steps[0]), steps[1..]);
    }
  }

  /** As long as every forwarder returns, the receiver always has exactly one owner and the last resort is never taken. */
  lemma {:induction false} ReturningForwardersKeepTheReceiver(a: Agent, steps: seq<Step>)
    requires Inv(a) && !Orphaned(a)
    requires EnabledRun(a, steps) && NeverDies(steps)
    ensures !Orphaned(Run(a, steps)) && Replacements(steps) == 0
    decreases |steps|
  {
    if steps != [] {
      StepKeepsCustody(a, steps[0]);
      StepKeepsLedger(a, steps[0]);
      assert steps[0] in steps;
      ReturningForwardersKeepTheReceiver(Next(a, steps[0]), steps[1..]);
    }
  }

  /** The lost messages of a log, with their connections. */
  function LostOn(log: seq<Fate>): seq<nat> {
    if log == [] then []
    else LostOn(log[..|log| - 1]) + if log[|log| - 1].Lost? then [log[|log| - 1].conn] else []
  }

  function HandedOver(log: seq<Fate>): seq<string> {
    if log == [] then []
    else HandedOver(log[..|log| - 1]) + if log[|log| - 1].Handed? then [log[|log| - 1].message] else []
  }

  lemma {:induction false} LostBelow(log: seq<Fate>, bound: nat)
    requires forall f | f in log && f.Lost? :: f.conn < bound
    ensures forall c | c in LostOn(log) :: c < bound
  {
    if log != [] {
      assert log == log[..|log| - 1] + [log[|log| - 1]];
      LostBelow(log[..|log| - 1], bound);
    }
  }

  lemma OrderlyPrefix(log: seq<Fate>)
    requires Orderly(log) && log != []
    ensures Orderly(log[..|log| - 1])
    ensures forall f | f in log[..|log| - 1] && f.Lost? :: f.conn < log[|log| - 1].conn
  {
    var before := log[..|log| - 1];
    assert forall i | 0 <= i < |before| :: before[i] == log[i];
  }

  /** Each connection loses at most one message. */
  lemma {:induction false} OneLossPerConnection(log: seq<Fate>)
    requires Orderly(log)
    ensures |HandedOver(log)| + |LostOn(log)| == |log|
    ensures forall i, j | 0 <= i < j < |LostOn(log)| :: LostOn(log)[i] < LostOn(log)[j]
  {
    hide Orderly;
    if log != [] {
      var before, f := log[..|log| - 1], log[|log| - 1];
      OrderlyPrefix(log);
      OneLossPerConnection(before);
      LostBelow(before, f.conn);
      var lost := LostOn(before);
      assert forall i | 0 <= i < |lost| :: lost[i] in lost;
    }
  }

  /** No send is ever dropped while forwarders return. */
  lemma {:induction false} NothingDropped(a: Agent, steps: seq<Step>)
    requires Inv(a) && !Orphaned(a) && a.tx == 0
    requires EnabledRun(a, steps) && NeverDies(steps)
    ensures Run(a, steps).dropped == a.dropped
    decreases |steps|
  {
    if steps != [] {
      StepKeepsCustody(a, steps[0]);
      StepKeepsLedger(a, steps[0]);
      assert steps[0] in steps;
      NothingDropped(Next(a, steps[0]), steps[1..]);
    }
  }

  /**
   * Over every run of connects, failures and reconnects in which each forwarder returns: the sender
   * captured by sessions is never replaced, the receiver has exactly one owner, `stream_loop` finds
   * it whenever it starts, no send is dropped, and what was sent is exactly what connections took,
   * in order, then what is in hand, then what is buffered; each connection loses at most one.
   */
  lemma OutputSurvivesReconnects(steps: seq<Step>)
    requires EnabledRun(NEW_AGENT, steps) && NeverDies(steps)
    ensures var a := Run(NEW_AGENT, steps);
      && a.tx == 0 && Owners(a) == 1 && a.dropped == []
      && (a.phase == Idle ==> a.rx == Some(0))
      && a.sent == Messages(a.log) + Hand(a) + a.buffer
      && |HandedOver(a.log)| + |LostOn(a.log)| == |a.log|
      && (forall i, j | 0 <= i < j < |LostOn(a.log)| :: LostOn(a.log)[i] < LostOn(a.log)[j])
      && (forall f | f in a.log :: f.conn <= a.conn)
  {
    RunKeepsInv(NEW_AGENT, steps);
    SenderReplacedOnlyByLastResort(NEW_AGENT, steps);
    ReturningForwardersKeepTheReceiver(NEW_AGENT, steps);
    NothingDropped(NEW_AGENT, steps);
    OneLossPerConnection(Run(NEW_AGENT, steps).log);
  }

  /** After the last resort, everything a session started earlier sends is dropped. */
  lemma ReplacedSenderDropsOutput(a: Agent, m: string)
    requires Inv(a) && Enabled(a, RecoversByReplacing)
    ensures var b := Next(a, RecoversByReplacing);
      && Enabled(b, SessionSends(a.tx, m))
      && Next(b, SessionSends(a.tx, m)).buffer == b.buffer && Next(b, SessionSends(a.tx, m)).dropped == b.dropped + [m]
      && Owners(b) == 1 && b.rx == Some(b.tx)
  {
  }

  /** Once a stream has ended, the forwarder can always return the receiver, at the cost of at most the message in hand. */
  lemma ClosedStreamCanRecover(a: Agent) returns (steps: seq<Step>)
    requires Inv(a) && a.phase == Closed && !Orphaned(a)
    ensures |steps| <= 2 && EnabledRun(a, steps) && NeverDies(steps)
    ensures var b := Run(a, steps);
      && b.phase == Idle && b.rx == Some(a.tx) && b.buffer == a.buffer && b.sent == a.sent
      && b.log == if Hand(a) == [] then a.log else a.log + [Lost(a.conn, Hand(a)[0])]
  {
    if a.mailbox.Some? {
      steps := [Recovers];
      assert steps[1..] == [];
    } else {
      var exit := if Hand(a) == [] then ForwarderStops else ForwarderLoses;
      steps := [exit, Recovers];
      assert steps[1..] == [Recovers] && [Recovers][1..] == [];
      var mid := Next(a, exit);
      assert Run(mid, [Recovers]) == Run(Next(mid, Recovers), []);
      assert EnabledRun(mid, [Recovers]);
    }
  }
}
