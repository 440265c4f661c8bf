/** Crash-loop detection: windowed restart counting, bounded rebuilds and counter resets. */
module CrashLoops {
  import opened Outcomes

  datatype VmState = Healthy | Recovering | Starting | CrashLoop | Rebuilding | Failed

  /** Durations and time stamps share one unit. */
  datatype CrashLoopConfig = CrashLoopConfig(
    maxRestarts: nat,
    window: nat,
    minUptime: int,
    healthyReset: nat,
    remediation: bool,
    maxRebuilds: nat)

  datatype VmHistory = VmHistory(state: VmState, crashes: seq<int>, rebuilds: nat, lastHealthy: Option<int>)

  const NEW_VM := VmHistory(Healthy, [], 0, None)

  // ---------- reads and updates of one history ----------

  function CountAfter(crashes: seq<int>, cutoff: int): nat {
    if crashes == [] then 0 else CountAfter(crashes[..|crashes| - 1], cutoff) + if crashes[|crashes| - 1] > cutoff then 1 else 0
  }

  /** Restarts in the rolling window ending at `now`. */
  function RestartsAt(crashes: seq<int>, window: nat, now: int): nat {
    CountAfter(crashes, now - window)
  }

  predicate ShouldReset(h: VmHistory, healthyReset: nat, now: int) {
    h.lastHealthy.Some? && h.lastHealthy.value < now - healthyReset && h.state == Healthy
  }

  function KeepAfter(crashes: seq<int>, cutoff: int): seq<int> {
    if crashes == [] then []
    else KeepAfter(crashes[..|crashes| - 1], cutoff) + if crashes[|crashes| - 1] > cutoff then [crashes[|crashes| - 1]] else []
  }

  /** Events older than twice the window are dropped. */
  function PruneOld(h: VmHistory, window: nat, now: int): VmHistory {
    h.(crashes := KeepAfter(h.crashes, now - 2 * window))
  }

  function Started(h: VmHistory): VmHistory {
    h.(state := Starting)
  }

  predicate BootCrash(cfg: CrashLoopConfig, uptime: Option<int>) {
    uptime.Some? ==> uptime.value < cfg.minUptime
  }

  /** The locked part of crash handling reads the clock three times: to record, to count and to prune. */
  function Crashed(cfg: CrashLoopConfig, h: VmHistory, uptime: Option<int>, recorded: int, counted: int, pruned: int): (VmHistory, bool) {
    var crashes := h.crashes + [recorded];
    var looping := RestartsAt(crashes, cfg.window, counted) >= cfg.maxRestarts && BootCrash(cfg, uptime);
    var exhausted := h.rebuilds >= cfg.maxRebuilds;
    var state := if !looping then Recovering else if exhausted then Failed else CrashLoop;
    (PruneOld(h.(state := state, crashes := crashes), cfg.window, pruned), looping && !exhausted && cfg.remediation)
  }

  /** `mark_healthy`, with the clock read once to enter Healthy and once for the reset check. */
  function MarkedHealthy(cfg: CrashLoopConfig, h: VmHistory, entered: int, checked: int): VmHistory {
    var h' := if h.state == Starting || h.state == Recovering then h.(state := Healthy, lastHealthy := Some(entered)) else h;
    if ShouldReset(h', cfg.healthyReset, checked) then h'.(crashes := [], rebuilds := 0) else h'
  }

  function RebuildTriggered(h: VmHistory): VmHistory {
    h.(state := Rebuilding, rebuilds := h.rebuilds + 1)
  }

  // ---------- runs ----------

  datatype LogEntry = DidStart | DidCrash | EnteredHealthy(at: int) | DidRebuild | RebuildFailed | DidReset(at: int)

  /**
   * One VM's history with what the history alone does not show: every crash since the last reset,
   * the latest clock reading, crash handlers that have decided on a rebuild but not yet triggered it,
   * and a log of what happened.
   */
  datatype Vm = Vm(h: VmHistory, allCrashes: seq<int>, clock: int, deciding: nat, log: seq<LogEntry>)

  datatype Op =
    | Start
    | Crash(uptime: Option<int>, recorded: int, counted: int, pruned: int)
    | MarkHealthy(entered: int, checked: int)
    | TriggerRebuild
    | ProvisionFailed

  function Step(cfg: CrashLoopConfig, v: Vm, op: Op): Vm {
    match op
    case Start => v.(h := Started(v.h), log := v.log + [DidStart])
    case Crash(uptime, recorded, counted, pruned) =>
      var (h, rebuild) := Crashed(cfg, v.h, uptime, recorded, counted, pruned);
      Vm(h, v.allCrashes + [recorded], pruned, if rebuild then v.deciding + 1 else v.deciding, v.log + [DidCrash])
    case MarkHealthy(entered, checked) =>
      var enters := v.h.state == Starting || v.h.state == Recovering;
      var h := MarkedHealthy(cfg, v.h, entered, checked);
      var mid := if enters then v.log + [EnteredHealthy(entered)] else v.log;
      var resets := ShouldReset(if enters then v.h.(state := Healthy, lastHealthy := Some(entered)) else v.h, cfg.healthyReset, checked);
      Vm(h, if resets then [] else v.allCrashes, checked, v.deciding, if resets then mid + [DidReset(checked)] else mid)
    case TriggerRebuild =>
      if v.deciding == 0 then v
      else v.(h := RebuildTriggered(v.h), deciding := v.deciding - 1, log := v.log + [DidRebuild])
    case ProvisionFailed => v.(h := v.h.(state := Failed), log := v.log + [RebuildFailed])
  }

  /**
   * The clock never runs backwards, and at most `handlers` crash handlers overlap. The background task
   * that `spawn_crash_loop_detector` starts awaits each event before it takes the next, so the service
   * runs with one handler; more are possible only for other callers of the public `process_event`.
   */
  predicate Legal(v: Vm, op: Op, handlers: nat) {
    match op
    case Crash(_, recorded, counted, pruned) => v.clock <= recorded <= counted <= pruned && v.deciding < handlers
    case MarkHealthy(entered, checked) => v.clock <= entered <= checked
    case _ => true
  }

  function Run(cfg: CrashLoopConfig, v: Vm, ops: seq<Op>): Vm
    decreases |ops|
  {
    if ops == [] then v else Run(cfg, Step(cfg, v, ops[0]), ops[1..])
  }

  predicate LegalRun(cfg: CrashLoopConfig, v: Vm, ops: seq<Op>, handlers: nat)
    decreases |ops|
  {
    ops == [] || (Legal(v, ops[0], handlers) && LegalRun(cfg, Step(cfg, v, ops[0]), ops[1..], handlers))
  }

  // ---------- pruning is invisible ----------

  lemma CountAppend(crashes: seq<int>, t: int, cutoff: int)
    ensures CountAfter(crashes + [t], cutoff) == CountAfter(crashes, cutoff) + if t > cutoff then 1 else 0
  {
    assert (crashes + [t])[..|crashes + [t]| - 1] == crashes;
  }

  lemma {:induction false} KeptCount(crashes: seq<int>, floor: int, cutoff: int)
    requires floor <= cutoff
    ensures CountAfter(KeepAfter(crashes, floor), cutoff) == CountAfter(crashes, cutoff)
  {
    if crashes != [] {
      var before, t := crashes[..|crashes| - 1], crashes[|crashes| - 1];
      KeptCount(before, floor, cutoff);
      if t > floor {
        CountAppend(KeepAfter(before, floor), t, cutoff);
      } else {
        assert KeepAfter(crashes, floor) == KeepAfter(before, floor);
      }
    }
  }

  /** The pruned list answers every window query from now on exactly as the full crash history does. */
  ghost predicate CountsAgree(cfg: CrashLoopConfig, v: Vm) {
    forall now: int | now >= v.clock :: RestartsAt(v.h.crashes, cfg.window, now) == RestartsAt(v.allCrashes, cfg.window, now)
  }

  lemma CrashKeepsCountAt(cfg: CrashLoopConfig, crashes: seq<int>, all: seq<int>, recorded: int, pruned: int, now: int)
    requires RestartsAt(crashes, cfg.window, now) == RestartsAt(all, cfg.window, now)
    requires pruned <= now
    ensures RestartsAt(KeepAfter(crashes + [recorded], pruned - 2 * cfg.window), cfg.window, now)
         == RestartsAt(all + [recorded], cfg.window, now)
  {
    hide CountAfter, KeepAfter;
    CountAppend(crashes, recorded, now - cfg.window);
    CountAppend(all, recorded, now - cfg.window);
    KeptCount(crashes + [recorded], pruned - 2 * cfg.window, now - cfg.window);
  }

  lemma StepKeepsCounts(cfg: CrashLoopConfig, v: Vm, op: Op, handlers: nat)
    requires CountsAgree(cfg, v) && Legal(v, op, handlers)
    ensures CountsAgree(cfg, Step(cfg, v, op))
  {
    hide RestartsAt;
    var v' := Step(cfg, v, op);
    if op.Crash? {
      forall now: int | now >= v'.clock
        ensures RestartsAt(v'.h.crashes, cfg.window, now) == RestartsAt(v'.allCrashes, cfg.window, now)
      {
        CrashKeepsCountAt(cfg, v.h.crashes, v.allCrashes, op.recorded, op.pruned, now);
      }
    }
  }

  /** The crashes, by position, that are later than the start of the window. */
  ghost function InWindow(crashes: seq<int>, window: nat, now: int): set<nat> {
    set i: nat | i < |crashes| && now - window < crashes[i]
  }

  /** What is counted: exactly the recorded crashes inside the rolling window. */
  lemma {:induction false} RestartsAreThoseInWindow(crashes: seq<int>, window: nat, now: int)
    ensures RestartsAt(crashes, window, now) == |InWindow(crashes, window, now)|
  {
    if crashes == [] {
      assert InWindow(crashes, window, now) == {};
    } else {
      var n := |crashes| - 1;
      RestartsAreThoseInWindow(crashes[..n], window, now);
      var before := InWindow(crashes[..n], window, now);
      assert InWindow(crashes, window, now) == before + if now - window < crashes[n] then {n} else {};
      assert n !in before;
    }
  }

  /**
   * The decision of a crash handler, over the full history rather than the pruned list: it orders a
   * rebuild exactly when remediation is on, the boot was short or of unknown length, attempts remain and
   * the window holds enough crashes.
   */
  lemma RebuildOrderedIff(cfg: CrashLoopConfig, v: Vm, op: Op, handlers: nat)
    requires op.Crash? && CountsAgree(cfg, v) && Legal(v, op, handlers)
    ensures Step(cfg, v, op).deciding == v.deciding + 1 <==>
      && cfg.remediation && (op.uptime.None? || op.uptime.value < cfg.minUptime) && v.h.rebuilds < cfg.maxRebuilds
      && |InWindow(v.allCrashes + [op.recorded], cfg.window, op.counted)| >= cfg.maxRestarts
  {
    LoopIsJudgedOverHistory(cfg, v, op, handlers);
    hide RestartsAt, InWindow, KeepAfter;
  }

  lemma LoopIsJudgedOverHistory(cfg: CrashLoopConfig, v: Vm, op: Op, handlers: nat)
    requires op.Crash? && CountsAgree(cfg, v) && Legal(v, op, handlers)
    ensures RestartsAt(v.h.crashes + [op.recorded], cfg.window, op.counted)
         == |InWindow(v.allCrashes + [op.recorded], cfg.window, op.counted)|
  {
    hide CountAfter, InWindow;
    RestartsAreThoseInWindow(v.allCrashes + [op.recorded], cfg.window, op.counted);
    assert RestartsAt(v.h.crashes, cfg.window, op.counted) == RestartsAt(v.allCrashes, cfg.window, op.counted);
    CountAppend(v.h.crashes, op.recorded, op.counted - cfg.window);
    CountAppend(v.allCrashes, op.recorded, op.counted - cfg.window);
  }

  lemma {:induction false} KeptAre(crashes: seq<int>, cutoff: int, c: int)
    ensures c in KeepAfter(crashes, cutoff) <==> c in crashes && c > cutoff
  {
    if crashes != [] {
      assert crashes == crashes[..|crashes| - 1] + [crashes[|crashes| - 1]];
      KeptAre(crashes[..|crashes| - 1], cutoff, c);
    }
  }

  /** The list a crash leaves: the old one and itself, less what is older than two windows. */
  lemma CrashListAfter(cfg: CrashLoopConfig, v: Vm, op: Op, c: int)
    requires op.Crash?
    ensures c in Step(cfg, v, op).h.crashes <==>
      (c in v.h.crashes || c == op.recorded) && op.pruned - 2 * cfg.window < c
  {
    KeptAre(v.h.crashes + [op.recorded], op.pruned - 2 * cfg.window, c);
    hide KeepAfter, RestartsAt;
  }

  /** What the last thing that happened to a VM says about its state. */
  ghost predicate StateInv(v: Vm) {
    v.log != [] ==>
      match v.log[|v.log| - 1]
      case DidStart => v.h.state == Starting
      case DidCrash => v.h.state == Recovering || v.h.state == CrashLoop || v.h.state == Failed
      case EnteredHealthy(_) => v.h.state == Healthy
      case DidRebuild => v.h.state == Rebuilding
      case RebuildFailed => v.h.state == Failed
      case DidReset(_) => v.h.state == Healthy
  }

  lemma StepKeepsState(cfg: CrashLoopConfig, v: Vm, op: Op)
    requires StateInv(v)
    ensures StateInv(Step(cfg, v, op))
  {
    hide RestartsAt, KeepAfter;
  }

  /** In every run the state follows the last event: started, crashed, healthy, rebuilding, or failed. */
  lemma {:induction false} StateFollowsLastEvent(cfg: CrashLoopConfig, v: Vm, ops: seq<Op>)
    requires StateInv(v)
    ensures StateInv(Run(cfg, v, ops))
    decreases |ops|
  {
    hide StateInv, Step;
    if ops != [] {
      StepKeepsState(cfg, v, ops[0]);
      StateFollowsLastEvent(cfg, Step(cfg, v, ops[0]), ops[1..]);
    }
  }

  /** The state a crash leaves: Recovering unless it is a loop, then Failed without and CrashLoop with attempts left. */
  lemma CrashState(cfg: CrashLoopConfig, v: Vm, op: Op, handlers: nat)
    requires op.Crash? && CountsAgree(cfg, v) && Legal(v, op, handlers)
    ensures var loop := (op.uptime.None? || op.uptime.value < cfg.minUptime)
        && |InWindow(v.allCrashes + [op.recorded], cfg.window, op.counted)| >= cfg.maxRestarts;
      var h := Step(cfg, v, op).h;
      && (h.state == Recovering <==> !loop)
      && (h.state == Failed <==> loop && v.h.rebuilds >= cfg.maxRebuilds)
      && (h.state == CrashLoop <==> loop && v.h.rebuilds < cfg.maxRebuilds)
      && h.rebuilds == v.h.rebuilds && h.lastHealthy == v.h.lastHealthy
  {
    LoopIsJudgedOverHistory(cfg, v, op, handlers);
    hide RestartsAt, InWindow, KeepAfter;
  }

  // ---------- bounded rebuilds ----------

  function RebuildsSinceReset(log: seq<LogEntry>): nat {
    if log == [] || log[|log| - 1].DidReset? then 0
    else RebuildsSinceReset(log[..|log| - 1]) + if log[|log| - 1].DidRebuild? then 1 else 0
  }

  ghost predicate BoundInv(cfg: CrashLoopConfig, v: Vm, handlers: nat) {
    && v.deciding <= handlers
    && (v.deciding > 0 ==> cfg.maxRebuilds >= 1 && v.h.rebuilds + v.deciding <= cfg.maxRebuilds + handlers - 1)
    && (v.h.rebuilds > 0 ==> v.h.rebuilds <= cfg.maxRebuilds + handlers - 1)
    && RebuildsSinceReset(v.log) == v.h.rebuilds
  }

  lemma LogAppend(log: seq<LogEntry>, e: LogEntry)
    ensures RebuildsSinceReset(log + [e]) ==
      if e.DidReset? then 0 else RebuildsSinceReset(log) + if e.DidRebuild? then 1 else 0
  {
    assert (log + [e])[..|log + [e]| - 1] == log;
  }

  lemma StepKeepsBound(cfg: CrashLoopConfig, v: Vm, op: Op, handlers: nat)
    requires BoundInv(cfg, v, handlers) && Legal(v, op, handlers) && handlers >= 1
    ensures BoundInv(cfg, Step(cfg, v, op), handlers)
  {
    match op
    case Start => LogAppend(v.log, DidStart);
    case Crash(_, _, _, _) => LogAppend(v.log, DidCrash);
    case MarkHealthy(entered, checked) =>
      var mid := if v.h.state == Starting || v.h.state == Recovering then v.log + [EnteredHealthy(entered)] else v.log;
      LogAppend(v.log, EnteredHealthy(entered));
      LogAppend(mid, DidReset(checked));
    case TriggerRebuild => LogAppend(v.log, DidRebuild);
    case ProvisionFailed => LogAppend(v.log, RebuildFailed);
  }

  // ---------- justified resets ----------

  /** The last thing that happened, resets aside, is that the VM entered Healthy at `t`. */
  predicate QuietSince(log: seq<LogEntry>, t: int) {
    log != [] && (log[|log| - 1] == EnteredHealthy(t) || (log[|log| - 1].DidReset? && QuietSince(log[..|log| - 1], t)))
  }

  /** A VM is Healthy since `t` exactly when its log has been quiet since it entered Healthy at `t`. */
  ghost predicate HealthyInv(v: Vm) {
    forall t: int :: QuietSince(v.log, t) <==> v.h.state == Healthy && v.h.lastHealthy == Some(t)
  }

  lemma QuietAppend(log: seq<LogEntry>, e: LogEntry, t: int)
    ensures QuietSince(log + [e], t) <==> e == EnteredHealthy(t) || (e.DidReset? && QuietSince(log, t))
  {
    assert (log + [e])[..|log + [e]| - 1] == log;
  }

  lemma StepKeepsHealthy(cfg: CrashLoopConfig, v: Vm, op: Op)
    requires HealthyInv(v)
    ensures HealthyInv(Step(cfg, v, op))
  {
    hide QuietSince, Crashed;
    var v' := Step(cfg, v, op);
    forall t: int ensures QuietSince(v'.log, t) <==> v'.h.state == Healthy && v'.h.lastHealthy == Some(t) {
      match op
      case Start => QuietAppend(v.log, DidStart, t);
      case Crash(uptime, recorded, counted, pruned) =>
        QuietAppend(v.log, DidCrash, t);
        CrashIsNotHealthy(cfg, v.h, uptime, recorded, counted, pruned);
      case MarkHealthy(entered, checked) =>
        var enters := v.h.state == Starting || v.h.state == Recovering;
        var mid := if enters then v.log + [EnteredHealthy(entered)] else v.log;
        QuietAppend(v.log, EnteredHealthy(entered), t);
        QuietAppend(mid, DidReset(checked), t);
      case TriggerRebuild => QuietAppend(v.log, DidRebuild, t);
      case ProvisionFailed => QuietAppend(v.log, RebuildFailed, t);
    }
  }

  lemma CrashIsNotHealthy(cfg: CrashLoopConfig, h: VmHistory, uptime: Option<int>, recorded: int, counted: int, pruned: int)
    ensures Crashed(cfg, h, uptime, recorded, counted, pruned).0.state != Healthy
  {
    hide RestartsAt, KeepAfter;
  }

  /** Whatever cleared the counters: nothing but a long enough healthy stretch. */
  lemma ResetIsJustified(cfg: CrashLoopConfig, v: Vm, op: Op)
    requires HealthyInv(v)
    requires Step(cfg, v, op).h.rebuilds < v.h.rebuilds || (Step(cfg, v, op).allCrashes == [] && v.allCrashes != [])
    ensures op.MarkHealthy?
    ensures var v' := Step(cfg, v, op);
      && v'.h.lastHealthy.Some? && v'.h.lastHealthy.value < op.checked - cfg.healthyReset
      && QuietSince(v'.log, v'.h.lastHealthy.value)
  {
    StepKeepsHealthy(cfg, v, op);
  }

  // ---------- whole runs ----------

  ghost predicate VmInv(cfg: CrashLoopConfig, v: Vm, handlers: nat) {
    CountsAgree(cfg, v) && BoundInv(cfg, v, handlers) && HealthyInv(v)
  }

  lemma {:induction false} RunKeepsVmInv(cfg: CrashLoopConfig, v: Vm, ops: seq<Op>, handlers: nat)
    requires VmInv(cfg, v, handlers) && LegalRun(cfg, v, ops, handlers) && handlers >= 1
    ensures VmInv(cfg, Run(cfg, v, ops), handlers)
    decreases |ops|
  {
    if ops != [] {
      StepKeepsCounts(cfg, v, ops[0], handlers);
      StepKeepsBound(cfg, v, ops[0], handlers);
      StepKeepsHealthy(cfg, v, ops[0]);
      RunKeepsVmInv(cfg, Step(cfg, v, ops[0]), ops[1..], handlers);
    }
  }

  /**
   * When `mark_healthy` resets: exactly when, entering Healthy now counted in, the VM has been quiet since
   * it entered Healthy more than the reset time ago. It then clears crashes and rebuilds, and otherwise
   * changes neither.
   */
  lemma MarkHealthyResetsIff(cfg: CrashLoopConfig, clock: int, ops: seq<Op>, entered: int, checked: int, handlers: nat)
    requires handlers >= 1 && LegalRun(cfg, NewVm(clock), ops, handlers)
    ensures var v := Run(cfg, NewVm(clock), ops);
      var v' := Step(cfg, v, MarkHealthy(entered, checked));
      var since := if v.h.state == Starting || v.h.state == Recovering then v.log + [EnteredHealthy(entered)] else v.log;
      && (v'.log == since + [DidReset(checked)] <==> exists t: int :: QuietSince(since, t) && t < checked - cfg.healthyReset)
      && (v'.log == since || v'.log == since + [DidReset(checked)])
      && (v'.log == since + [DidReset(checked)] ==> v'.h.crashes == [] && v'.h.rebuilds == 0)
      && (v'.log == since ==> v'.h.crashes == v.h.crashes && v'.h.rebuilds == v.h.rebuilds)
  {
    RunKeepsVmInv(cfg, NewVm(clock), ops, handlers);
    ResetsIff(cfg, Run(cfg, NewVm(clock), ops), entered, checked);
  }

  /** Since when the VM counts as healthy once `mark_healthy` has entered Healthy, if it does. */
  ghost function HealthySince(h: VmHistory, entered: int): Option<int> {
    if h.state == Starting || h.state == Recovering then Some(entered)
    else if h.state == Healthy then h.lastHealthy
    else None
  }

  lemma QuietSinceIs(v: Vm, entered: int, t: int)
    requires HealthyInv(v)
    ensures var since := if v.h.state == Starting || v.h.state == Recovering then v.log + [EnteredHealthy(entered)] else v.log;
      QuietSince(since, t) <==> HealthySince(v.h, entered) == Some(t)
  {
    QuietAppend(v.log, EnteredHealthy(entered), t);
    hide QuietSince;
  }

  lemma ResetsIff(cfg: CrashLoopConfig, v: Vm, entered: int, checked: int)
    requires HealthyInv(v)
    ensures var v' := Step(cfg, v, MarkHealthy(entered, checked));
      var since := if v.h.state == Starting || v.h.state == Recovering then v.log + [EnteredHealthy(entered)] else v.log;
      && (v'.log == since + [DidReset(checked)] <==> exists t: int :: QuietSince(since, t) && t < checked - cfg.healthyReset)
      && (v'.log == since || v'.log == since + [DidReset(checked)])
      && (v'.log == since + [DidReset(checked)] ==> v'.h.crashes == [] && v'.h.rebuilds == 0)
      && (v'.log == since ==> v'.h.crashes == v.h.crashes && v'.h.rebuilds == v.h.rebuilds)
  {
    hide QuietSince, HealthyInv;
    var since := if v.h.state == Starting || v.h.state == Recovering then v.log + [EnteredHealthy(entered)] else v.log;
    var from := HealthySince(v.h, entered);
    var resets := from.Some? && from.value < checked - cfg.healthyReset;
    assert |since + [DidReset(checked)]| == |since| + 1;
    assert Step(cfg, v, MarkHealthy(entered, checked)).log == if resets then since + [DidReset(checked)] else since;
    forall t: int ensures QuietSince(since, t) <==> from == Some(t) {
      QuietSinceIs(v, entered, t);
    }
    if resets {
      assert QuietSince(since, from.value);
    }
  }

  /** In every run, counters are cleared only after a healthy stretch longer than the reset time, undisturbed to its end. */
  lemma EveryResetIsJustified(cfg: CrashLoopConfig, clock: int, ops: seq<Op>, op: Op, handlers: nat)
    requires handlers >= 1 && LegalRun(cfg, NewVm(clock), ops, handlers)
    requires var v := Run(cfg, NewVm(clock), ops);
      Step(cfg, v, op).h.rebuilds < v.h.rebuilds || (Step(cfg, v, op).allCrashes == [] && v.allCrashes != [])
    ensures op.MarkHealthy?
    ensures var v' := Step(cfg, Run(cfg, NewVm(clock), ops), op);
      && v'.h.lastHealthy.Some? && v'.h.lastHealthy.value < op.checked - cfg.healthyReset
      && QuietSince(v'.log, v'.h.lastHealthy.value)
  {
    RunKeepsVmInv(cfg, NewVm(clock), ops, handlers);
    ResetIsJustified(cfg, Run(cfg, NewVm(clock), ops), op);
  }

  function NewVm(clock: int): Vm {
    Vm(NEW_VM, [], clock, 0, [])
  }

  /**
   * Over every run of a VM whose crash events are handled one at a time, with `mark_healthy` allowed
   * between a handler's decision and its rebuild: the pruned list counts like the full history, and
   * no more rebuilds happen between two resets than the configured maximum.
   */
  lemma SerialRunIsBounded(cfg: CrashLoopConfig, clock: int, ops: seq<Op>)
    requires LegalRun(cfg, NewVm(clock), ops, 1)
    ensures var v := Run(cfg, NewVm(clock), ops);
      && CountsAgree(cfg, v)
      && v.h.rebuilds <= cfg.maxRebuilds
      && RebuildsSinceReset(v.log) <= cfg.maxRebuilds
  {
    RunKeepsVmInv(cfg, NewVm(clock), ops, 1);
  }

  /** For callers that process events concurrently: with `handlers` overlapping handlers the bound weakens by the overlap. */
  lemma OverlappingRunIsBounded(cfg: CrashLoopConfig, clock: int, ops: seq<Op>, handlers: nat)
    requires handlers >= 1
    requires LegalRun(cfg, NewVm(clock), ops, handlers)
    ensures Run(cfg, NewVm(clock), ops).h.rebuilds <= cfg.maxRebuilds + handlers - 1
  {
    RunKeepsVmInv(cfg, NewVm(clock), ops, handlers);
  }

  /** Called concurrently, two handlers can both see the last attempt as free, and exceed the maximum. */
  lemma OverlapExceedsMaximum(cfg: CrashLoopConfig, t: int)
    requires cfg.maxRestarts <= 1 && cfg.window > 0 && cfg.remediation && cfg.maxRebuilds == 1
    ensures var crash := Crash(None, t, t, t);
      var v1 := Step(cfg, NewVm(t), crash);
      var v2 := Step(cfg, v1, crash);
      && Legal(NewVm(t), crash, 2) && Legal(v1, crash, 2)
      && Step(cfg, Step(cfg, v2, TriggerRebuild), TriggerRebuild).h.rebuilds == cfg.maxRebuilds + 1
  {
    hide CountAfter, KeepAfter;
    CountAppend([], t, t - cfg.window);
    var v1 := Step(cfg, NewVm(t), Crash(None, t, t, t));
    CountAppend(v1.h.crashes, t, t - cfg.window);
  }

  // ---------- what the maximum requires of callers ----------

  /** Some crash can order a rebuild under this configuration. */
  predicate CanRebuild(cfg: CrashLoopConfig) {
    cfg.remediation && cfg.maxRebuilds >= 1 && (cfg.window > 0 || cfg.maxRestarts == 0)
  }

  lemma {:induction false} RunAppend(cfg: CrashLoopConfig, v: Vm, a: seq<Op>, b: seq<Op>, handlers: nat)
    ensures Run(cfg, v, a + b) == Run(cfg, Run(cfg, v, a), b)
    ensures LegalRun(cfg, v, a + b, handlers) <==> LegalRun(cfg, v, a, handlers) && LegalRun(cfg, Run(cfg, v, a), b, handlers)
    decreases |a|
  {
    if a == [] {
      assert a + b == b;
    } else {
      assert (a + b)[0] == a[0] && (a + b)[1..] == a[1..] + b;
      RunAppend(cfg, Step(cfg, v, a[0]), a[1..], b, handlers);
    }
  }

  lemma RunOne(cfg: CrashLoopConfig, v: Vm, op: Op, handlers: nat)
    ensures Run(cfg, v, [op]) == Step(cfg, v, op)
    ensures LegalRun(cfg, v, [op], handlers) <==> Legal(v, op, handlers)
  {
    assert [op][1..] == [];
    assert Run(cfg, Step(cfg, v, op), []) == Step(cfg, v, op);
  }

  /** At time `t` the window already holds enough crashes for the next one to be a loop. */
  ghost predicate Primed(cfg: CrashLoopConfig, v: Vm, t: int) {
    v.clock == t && RestartsAt(v.h.crashes + [t], cfg.window, t) >= cfg.maxRestarts
  }

  /** A crash at `t` adds one to the window count at `t`, unless the window is empty. */
  lemma CrashCounts(cfg: CrashLoopConfig, h: VmHistory, uptime: Option<int>, t: int)
    ensures RestartsAt(Crashed(cfg, h, uptime, t, t, t).0.crashes, cfg.window, t)
         == RestartsAt(h.crashes, cfg.window, t) + if cfg.window > 0 then 1 else 0
  {
    hide CountAfter, KeepAfter;
    KeptCount(h.crashes + [t], t - 2 * cfg.window, t - cfg.window);
    CountAppend(h.crashes, t, t - cfg.window);
  }

  lemma LoopingCrash(cfg: CrashLoopConfig, v: Vm, t: int, handlers: nat)
    requires CanRebuild(cfg) && Primed(cfg, v, t)
    requires v.deciding < handlers && v.h.rebuilds < cfg.maxRebuilds
    ensures var op := Crash(None, t, t, t); var v' := Step(cfg, v, op);
      Legal(v, op, handlers) && Primed(cfg, v', t) && v'.deciding == v.deciding + 1 && v'.h.rebuilds == v.h.rebuilds
  {
    hide CountAfter, KeepAfter;
    var v' := Step(cfg, v, Crash(None, t, t, t));
    CrashCounts(cfg, v.h, None, t);
    CountAppend(v.h.crashes, t, t - cfg.window);
    CountAppend(v'.h.crashes, t, t - cfg.window);
  }

  /** Crashes after a long uptime fill the window without ordering a rebuild. */
  lemma {:induction false} FillWindow(cfg: CrashLoopConfig, v: Vm, t: int, k: nat, handlers: nat) returns (ops: seq<Op>)
    requires CanRebuild(cfg) && handlers >= 1
    requires v.clock == t && v.deciding == 0
    requires RestartsAt(v.h.crashes, cfg.window, t) + k >= cfg.maxRestarts
    ensures LegalRun(cfg, v, ops, handlers)
    ensures var last := Run(cfg, v, ops); Primed(cfg, last, t) && last.deciding == 0 && last.h.rebuilds == v.h.rebuilds
    decreases k
  {
    if k == 0 || cfg.maxRestarts == 0 {
      CountAppend(v.h.crashes, t, t - cfg.window);
      ops := [];
    } else {
      var op := Crash(Some(cfg.minUptime), t, t, t);
      CrashCounts(cfg, v.h, op.uptime, t);
      var rest := FillWindow(cfg, Step(cfg, v, op), t, k - 1, handlers);
      ops := [op] + rest;
      RunOne(cfg, v, op, handlers);
      RunAppend(cfg, v, [op], rest, handlers);
    }
  }

  /** One crash after another, each followed by its rebuild. */
  lemma {:induction false} RebuildTimes(cfg: CrashLoopConfig, v: Vm, t: int, k: nat, handlers: nat) returns (ops: seq<Op>)
    requires CanRebuild(cfg) && handlers >= 1
    requires Primed(cfg, v, t) && v.deciding == 0 && v.h.rebuilds + k <= cfg.maxRebuilds
    ensures LegalRun(cfg, v, ops, handlers)
    ensures var last := Run(cfg, v, ops); Primed(cfg, last, t) && last.deciding == 0 && last.h.rebuilds == v.h.rebuilds + k
    decreases k
  {
    hide RestartsAt, Crashed;
    ops := [];
    if k > 0 {
      var crash := Crash(None, t, t, t);
      LoopingCrash(cfg, v, t, handlers);
      var mid := Step(cfg, v, crash);
      var next := Step(cfg, mid, TriggerRebuild);
      var rest := RebuildTimes(cfg, next, t, k - 1, handlers);
      RunOne(cfg, v, crash, handlers);
      RunOne(cfg, mid, TriggerRebuild, handlers);
      RunAppend(cfg, mid, [TriggerRebuild], rest, handlers);
      RunAppend(cfg, v, [crash], [TriggerRebuild] + rest, handlers);
      ops := [crash] + ([TriggerRebuild] + rest);
    }
  }

  /** Several crashes whose handlers all decide before any of them triggers. */
  lemma {:induction false} DecideTimes(cfg: CrashLoopConfig, v: Vm, t: int, k: nat, handlers: nat) returns (ops: seq<Op>)
    requires CanRebuild(cfg)
    requires Primed(cfg, v, t) && v.h.rebuilds < cfg.maxRebuilds && v.deciding + k <= handlers
    ensures LegalRun(cfg, v, ops, handlers)
    ensures var last := Run(cfg, v, ops); last.deciding == v.deciding + k && last.h.rebuilds == v.h.rebuilds
    decreases k
  {
    hide RestartsAt, Crashed;
    ops := [];
    if k > 0 {
      var crash := Crash(None, t, t, t);
      LoopingCrash(cfg, v, t, handlers);
      var rest := DecideTimes(cfg, Step(cfg, v, crash), t, k - 1, handlers);
      RunOne(cfg, v, crash, handlers);
      RunAppend(cfg, v, [crash], rest, handlers);
      ops := [crash] + rest;
    }
  }

  lemma {:induction false} TriggerTimes(cfg: CrashLoopConfig, v: Vm, k: nat, handlers: nat) returns (ops: seq<Op>)
    requires k <= v.deciding
    ensures LegalRun(cfg, v, ops, handlers)
    ensures Run(cfg, v, ops).h.rebuilds == v.h.rebuilds + k
    decreases k
  {
    ops := [];
    if k > 0 {
      var rest := TriggerTimes(cfg, Step(cfg, v, TriggerRebuild), k - 1, handlers);
      RunOne(cfg, v, TriggerRebuild, handlers);
      RunAppend(cfg, v, [TriggerRebuild], rest, handlers);
      ops := [TriggerRebuild] + rest;
    }
  }

  /** The bound of `OverlappingRunIsBounded` is reached: some legal run makes every overlapping handler rebuild. */
  lemma OverlapBoundIsReached(cfg: CrashLoopConfig, t: int, handlers: nat) returns (ops: seq<Op>)
    requires CanRebuild(cfg) && handlers >= 1
    ensures LegalRun(cfg, NewVm(t), ops, handlers)
    ensures Run(cfg, NewVm(t), ops).h.rebuilds == cfg.maxRebuilds + handlers - 1
  {
    hide LegalRun, Run, RestartsAt;
    var v0 := NewVm(t);
    var fill := FillWindow(cfg, v0, t, cfg.maxRestarts, handlers);
    var v1 := Run(cfg, v0, fill);
    var rebuild := RebuildTimes(cfg, v1, t, cfg.maxRebuilds - 1, handlers);
    var v2 := Run(cfg, v1, rebuild);
    var decide := DecideTimes(cfg, v2, t, handlers, handlers);
    var v3 := Run(cfg, v2, decide);
    var trigger := TriggerTimes(cfg, v3, handlers, handlers);
    RunAppend(cfg, v2, decide, trigger, handlers);
    RunAppend(cfg, v1, rebuild, decide + trigger, handlers);
    RunAppend(cfg, v0, fill, rebuild + (decide + trigger), handlers);
    ops := fill + (rebuild + (decide + trigger));
  }

  /** No crash has ordered a rebuild, and every recorded crash lies in the past. */
  ghost predicate NeverRebuilt(v: Vm) {
    v.deciding == 0 && v.h.rebuilds == 0 && forall c | c in v.h.crashes :: c <= v.clock
  }

  lemma {:induction false} NoneAfter(crashes: seq<int>, cutoff: int)
    requires forall c | c in crashes :: c <= cutoff
    ensures CountAfter(crashes, cutoff) == 0
  {
    if crashes != [] {
      var before := crashes[..|crashes| - 1];
      assert crashes[|crashes| - 1] in crashes;
      forall c | c in before ensures c <= cutoff {
        assert c in crashes;
      }
      NoneAfter(before, cutoff);
    }
  }

  lemma {:induction false} KeptAreCrashes(crashes: seq<int>, cutoff: int)
    ensures forall c | c in KeepAfter(crashes, cutoff) :: c in crashes
  {
    if crashes != [] {
      KeptAreCrashes(crashes[..|crashes| - 1], cutoff);
    }
  }

  lemma StepNeverRebuilds(cfg: CrashLoopConfig, v: Vm, op: Op, handlers: nat)
    requires !CanRebuild(cfg) && NeverRebuilt(v) && Legal(v, op, handlers)
    ensures NeverRebuilt(Step(cfg, v, op))
  {
    hide CountAfter, KeepAfter;
    if op.Crash? {
      var crashes := v.h.crashes + [op.recorded];
      KeptAreCrashes(crashes, op.pruned - 2 * cfg.window);
      NoneAfter(crashes, op.counted);
    }
  }

  lemma {:induction false} RunNeverRebuilds(cfg: CrashLoopConfig, v: Vm, ops: seq<Op>, handlers: nat)
    requires !CanRebuild(cfg) && NeverRebuilt(v) && LegalRun(cfg, v, ops, handlers)
    ensures NeverRebuilt(Run(cfg, v, ops))
    decreases |ops|
  {
    if ops != [] {
      StepNeverRebuilds(cfg, v, ops[0], handlers);
      RunNeverRebuilds(cfg, Step(cfg, v, ops[0]), ops[1..], handlers);
    }
  }

  ghost predicate AlwaysWithinMaximum(cfg: CrashLoopConfig, clock: int, handlers: nat) {
    forall ops | LegalRun(cfg, NewVm(clock), ops, handlers) :: Run(cfg, NewVm(clock), ops).h.rebuilds <= cfg.maxRebuilds
  }

  /**
   * What callers of `process_event` must observe: the configured maximum holds in every run exactly when
   * crash handlers do not overlap (or none can ever rebuild).
   */
  lemma MaximumHoldsIff(cfg: CrashLoopConfig, clock: int, handlers: nat)
    requires handlers >= 1
    ensures AlwaysWithinMaximum(cfg, clock, handlers) <==> handlers == 1 || !CanRebuild(cfg)
  {
    forall ops | LegalRun(cfg, NewVm(clock), ops, handlers) && (handlers == 1 || !CanRebuild(cfg))
      ensures Run(cfg, NewVm(clock), ops).h.rebuilds <= cfg.maxRebuilds
    {
      if handlers == 1 {
        SerialRunIsBounded(cfg, clock, ops);
      } else {
        RunNeverRebuilds(cfg, NewVm(clock), ops, handlers);
      }
    }
    if CanRebuild(cfg) && handlers > 1 {
      var ops := OverlapBoundIsReached(cfg, clock, handlers);
      assert Run(cfg, NewVm(clock), ops).h.rebuilds > cfg.maxRebuilds;
    }
  }

  // ---------- the detector object ----------

  class CrashLoopDetector {
    const cfg: CrashLoopConfig
    var histories: map<string, VmHistory>

    constructor (cfg: CrashLoopConfig)
      ensures this.cfg == cfg && histories == map[]
    {
      this.cfg, histories := cfg, map[];
    }

    function HistoryOf(vm: string): VmHistory reads this {
      if vm in histories then histories[vm] else NEW_VM
    }

    method HandleStarted(vm: string)
      modifies this
      ensures histories == old(histories)[vm := Started(old(HistoryOf(vm)))]
    {
      histories := histories[vm := HistoryOf(vm).(state := Starting)];
    }

    /** Records the crash under the lock and says whether a rebuild must follow once it is released. */
    method HandleCrash(vm: string, uptime: Option<int>, recorded: int, counted: int, pruned: int) returns (remediate: bool)
      modifies this
      ensures (HistoryOf(vm), remediate) == Crashed(cfg, old(HistoryOf(vm)), uptime, recorded, counted, pruned)
      ensures histories == old(histories)[vm := HistoryOf(vm)]
    {
      var h := HistoryOf(vm);
      h := h.(crashes := h.crashes + [recorded], state := Recovering);
      var restarts := RestartsAt(h.crashes, cfg.window, counted);
      remediate := false;
      if restarts >= cfg.maxRestarts && BootCrash(cfg, uptime) {
        h := h.(state := CrashLoop);
        if h.rebuilds >= cfg.maxRebuilds {
          h := h.(state := Failed);
        } else {
          remediate := cfg.remediation;
        }
      }
      histories := histories[vm := PruneOld(h, cfg.window, pruned)];
    }

    method MarkVmHealthy(vm: string, entered: int, checked: int)
      modifies this
      ensures vm !in old(histories) ==> histories == old(histories)
      ensures vm in old(histories) ==>
        histories == old(histories)[vm := MarkedHealthy(cfg, old(histories)[vm], entered, checked)]
    {
      if vm in histories {
        var h := histories[vm];
        if h.state == Starting || h.state == Recovering {
          h := h.(state := Healthy, lastHealthy := Some(entered));
        }
        if ShouldReset(h, cfg.healthyReset, checked) {
          h := h.(crashes := [], rebuilds := 0);
        }
        histories := histories[vm := h];
      }
    }

    method BeginRebuild(vm: string)
      modifies this
      ensures vm !in old(histories) ==> histories == old(histories)
      ensures vm in old(histories) ==> histories == old(histories)[vm := RebuildTriggered(old(histories)[vm])]
    {
      if vm in histories {
        var h := histories[vm];
        histories := histories[vm := h.(state := Rebuilding, rebuilds := h.rebuilds + 1)];
      }
    }
  }
}
