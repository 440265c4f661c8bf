/** Session reporting and reconciliation in the agent. */
module SessionReconciliation {
  import opened Outcomes

  const TMUX_PREFIX := "tmux:"

  datatype ActiveSession = ActiveSession(commandId: string, name: string)

  /** A tracked command; only its optional session name matters here. */
  datatype RunningCommand = RunningCommand(name: Option<string>)

  type RunningCommands = map<string, RunningCommand>

  function TmuxCommandId(name: string): string {
    TMUX_PREFIX + name
  }

  function TmuxNameOf(id: string): Option<string> {
    if TMUX_PREFIX <= id && |id| > |TMUX_PREFIX| then Some(id[|TMUX_PREFIX|..]) else None
  }

  /** A tmux alias names exactly the session it was made from, and only non-empty names are aliases. */
  lemma AliasRoundTrip(name: string, id: string)
    ensures TmuxNameOf(id) == Some(name) <==> id == TmuxCommandId(name) && name != ""
  {
    if TmuxNameOf(id) == Some(name) {
      assert id == id[..5] + id[5..];
    } else if id == TmuxCommandId(name) {
      assert id[5..] == name;
    }
  }

  // ---------- the report ----------

  function KnownIds(tracked: seq<ActiveSession>): set<string> {
    set s | s in tracked :: s.commandId
  }

  function KnownNames(tracked: seq<ActiveSession>): set<string> {
    set s | s in tracked && s.name != "" :: s.name
  }

  function NewSessions(ids: set<string>, names: set<string>, discovered: seq<ActiveSession>): (r: seq<ActiveSession>)
    ensures forall s :: s in r <==> s in discovered && s.commandId !in ids && s.name !in names
  {
    if discovered == [] then []
    else
      var rest := NewSessions(ids, names, discovered[1..]);
      if discovered[0].commandId !in ids && discovered[0].name !in names then [discovered[0]] + rest else rest
  }

  /** Tracked sessions first, then discovered ones that repeat neither an id nor a non-empty name. */
  function MergeDiscovered(tracked: seq<ActiveSession>, discovered: seq<ActiveSession>): seq<ActiveSession> {
    tracked + NewSessions(KnownIds(tracked), KnownNames(tracked), discovered)
  }

  ghost predicate DistinctSessions(sessions: seq<ActiveSession>) {
    forall i, j | 0 <= i < j < |sessions| :: sessions[i].commandId != sessions[j].commandId && sessions[i].name != sessions[j].name
  }

  lemma {:induction false} NewSessionsKeepDistinct(ids: set<string>, names: set<string>, discovered: seq<ActiveSession>)
    requires DistinctSessions(discovered)
    ensures DistinctSessions(NewSessions(ids, names, discovered))
  {
    if discovered != [] {
      var rest := discovered[1..];
      assert forall i | 0 <= i < |rest| :: rest[i] == discovered[i + 1];
      NewSessionsKeepDistinct(ids, names, rest);
      var added := NewSessions(ids, names, rest);
      forall i | 0 <= i < |added| ensures added[i].commandId != discovered[0].commandId && added[i].name != discovered[0].name {
        assert added[i] in added;
        var j :| 0 <= j < |rest| && rest[j] == added[i];
      }
    }
  }

  /** No session is reported twice: whatever discovery adds repeats no id and no name reported before it. */
  lemma MergeReportsEachOnce(tracked: seq<ActiveSession>, discovered: seq<ActiveSession>)
    requires DistinctSessions(discovered) && forall s | s in discovered :: s.name != ""
    ensures var merged := MergeDiscovered(tracked, discovered);
      && tracked <= merged
      && forall i, j | 0 <= i < j < |merged| && |tracked| <= j ::
           merged[i].commandId != merged[j].commandId && merged[i].name != merged[j].name
  {
    var ids, names := KnownIds(tracked), KnownNames(tracked);
    var added := NewSessions(ids, names, discovered);
    NewSessionsKeepDistinct(ids, names, discovered);
    var merged := tracked + added;
    forall i, j | 0 <= i < j < |merged| && |tracked| <= j
      ensures merged[i].commandId != merged[j].commandId && merged[i].name != merged[j].name
    {
      assert merged[j] == added[j - |tracked|] && merged[j] in added;
      if i < |tracked| {
        assert merged[i] in tracked && merged[i].commandId in ids;
        assert merged[i].name != "" ==> merged[i].name in names;
      } else {
        assert merged[i] == added[i - |tracked|];
      }
    }
  }

  /** `order` is the iteration order of the command map. */
  function Tracked(running: RunningCommands, order: seq<string>): (r: seq<ActiveSession>)
    requires forall id | id in order :: id in running
    ensures forall s :: s in r <==> s.commandId in order && s.name == NameOf(running[s.commandId])
  {
    if order == [] then []
    else
      assert order == [order[0]] + order[1..];
      [ActiveSession(order[0], NameOf(running[order[0]]))] + Tracked(running, order[1..])
  }

  function NameOf(command: RunningCommand): string {
    if command.name.Some? then command.name.value else ""
  }

  ghost predicate Enumerates(order: seq<string>, running: RunningCommands) {
    forall id :: id in order <==> id in running
  }

  function Ids(sessions: seq<ActiveSession>): (r: seq<string>)
    ensures forall id :: id in r <==> exists s | s in sessions :: s.commandId == id
  {
    if sessions == [] then []
    else
      assert sessions == [sessions[0]] + sessions[1..];
      [sessions[0].commandId] + Ids(sessions[1..])
  }

  function Report(running: RunningCommands, order: seq<string>, discovered: seq<ActiveSession>): seq<string>
    requires forall id | id in order :: id in running
  {
    Ids(MergeDiscovered(Tracked(running, order), discovered))
  }

  /** Discovery only yields tmux aliases of named sessions. */
  predicate FromTmux(discovered: seq<ActiveSession>) {
    forall s | s in discovered :: s.name != "" && s.commandId == TmuxCommandId(s.name)
  }

  // ---------- killing ----------

  /** What the system does while sessions are killed: which tmux kills work, and which commands exit by themselves before a turn. */
  datatype Environment = Environment(tmuxKilled: nat -> bool, exited: nat -> set<string>)

  datatype KillResult = KillResult(killed: seq<string>, failed: seq<string>, running: RunningCommands)

  function KillTurn(env: Environment, i: nat, id: string, r: KillResult): KillResult {
    var running := r.running - env.exited(i);
    if TmuxNameOf(id).Some? then
      if env.tmuxKilled(i) then KillResult(r.killed + [id], r.failed, running)
      else KillResult(r.killed, r.failed + [id], running)
    else KillResult(r.killed + [id], r.failed, running - {id})
  }

  function KillFrom(env: Environment, ids: seq<string>, i: nat, r: KillResult): KillResult
    requires i <= |ids|
    decreases |ids| - i
  {
    if i == |ids| then r else KillFrom(env, ids, i + 1, KillTurn(env, i, ids[i], r))
  }

  function KillAll(env: Environment, ids: seq<string>, running: RunningCommands): KillResult {
    KillFrom(env, ids, 0, KillResult([], [], running))
  }

  /** Everything asked for is reported once, as killed or as failed; only tmux kills can fail. */
  lemma {:induction false} KillFromAccounts(env: Environment, ids: seq<string>, i: nat, r: KillResult)
    requires i <= |ids|
    requires forall id | id in r.failed :: TmuxNameOf(id).Some?
    ensures var done := KillFrom(env, ids, i, r);
      && multiset(done.killed) + multiset(done.failed) == multiset(r.killed) + multiset(r.failed) + multiset(ids[i..])
      && forall id | id in done.failed :: TmuxNameOf(id).Some?
    decreases |ids| - i
  {
    if i < |ids| {
      assert ids[i..] == [ids[i]] + ids[i + 1..];
      KillFromAccounts(env, ids, i + 1, KillTurn(env, i, ids[i], r));
    } else {
      assert ids[i..] == [];
    }
  }

  /** A command is left exactly when it was there, was not asked for (tmux ids aside) and did not exit by itself. */
  lemma {:induction false} KillFromLeaves(env: Environment, ids: seq<string>, i: nat, r: KillResult, id: string)
    requires i <= |ids|
    ensures id in KillFrom(env, ids, i, r).running <==>
      && id in r.running
      && (TmuxNameOf(id).Some? || id !in ids[i..])
      && (forall j | i <= j < |ids| :: id !in env.exited(j))
    ensures id in KillFrom(env, ids, i, r).running ==> KillFrom(env, ids, i, r).running[id] == r.running[id]
    decreases |ids| - i
  {
    if i < |ids| {
      assert ids[i..] == [ids[i]] + ids[i + 1..];
      KillFromLeaves(env, ids, i + 1, KillTurn(env, i, ids[i], r), id);
    } else {
      assert ids[i..] == [];
    }
  }

  // ---------- reconciliation ----------

  datatype Reconcile = Reconcile(keep: seq<string>, kill: seq<string>, killUnrecognized: bool)

  function Without(ids: seq<string>, keep: seq<string>): (r: seq<string>)
    ensures forall id :: id in r <==> id in ids && id !in keep
  {
    if ids == [] then []
    else if ids[0] !in keep then [ids[0]] + Without(ids[1..], keep)
    else Without(ids[1..], keep)
  }

  function ToKill(msg: Reconcile, running: RunningCommands, order: seq<string>, discovered: seq<ActiveSession>): seq<string>
    requires forall id | id in order :: id in running
  {
    if msg.killUnrecognized then Without(Report(running, order, discovered), msg.keep) else msg.kill
  }

  /** What is reported: every tracked command, and each discovered session whose id and name none of them has. */
  lemma ReportedIff(running: RunningCommands, order: seq<string>, discovered: seq<ActiveSession>, id: string)
    requires Enumerates(order, running)
    ensures id in Report(running, order, discovered) <==>
      || id in running
      || exists s | s in discovered ::
           && s.commandId == id && id !in running
           && (s.name == "" || forall c | c in running :: running[c].name != Some(s.name))
  {
    var tracked := Tracked(running, order);
    forall c | c in running ensures ActiveSession(c, NameOf(running[c])) in tracked {}
    forall x: string ensures x in KnownIds(tracked) <==> x in running {
      if x in running {
        assert ActiveSession(x, NameOf(running[x])) in tracked;
      }
    }
    forall n: string | n != "" ensures n in KnownNames(tracked) <==> exists c | c in running :: running[c].name == Some(n) {
      forall c | c in running && running[c].name == Some(n) ensures n in KnownNames(tracked) {
        assert ActiveSession(c, n) in tracked;
      }
    }
    assert "" !in KnownNames(tracked);
    var added := NewSessions(KnownIds(tracked), KnownNames(tracked), discovered);
    hide Tracked, KnownIds, KnownNames, NewSessions;
    if id in running {
      assert ActiveSession(id, NameOf(running[id])) in tracked + added;
    } else {
      assert forall s: ActiveSession | s in tracked + added && s.commandId == id :: s in added;
    }
  }

  /** What a reconcile asks to kill: its own list, or with `kill_unrecognized` exactly what is reported and not kept. */
  lemma AskedToKillIff(msg: Reconcile, running: RunningCommands, order: seq<string>, discovered: seq<ActiveSession>, id: string)
    requires Enumerates(order, running)
    ensures !msg.killUnrecognized ==> ToKill(msg, running, order, discovered) == msg.kill
    ensures msg.killUnrecognized ==>
      (id in ToKill(msg, running, order, discovered) <==> id in Report(running, order, discovered) && id !in msg.keep)
  {
  }

  /** Which ids are reported killed and which failed: a tmux id by what its own kill returned, any other always killed. */
  lemma {:induction false} KilledIff(env: Environment, ids: seq<string>, i: nat, r: KillResult, id: string)
    requires i <= |ids|
    ensures id in KillFrom(env, ids, i, r).killed <==>
      id in r.killed || exists j | i <= j < |ids| :: ids[j] == id && (TmuxNameOf(id).None? || env.tmuxKilled(j))
    ensures id in KillFrom(env, ids, i, r).failed <==>
      id in r.failed || exists j | i <= j < |ids| :: ids[j] == id && TmuxNameOf(id).Some? && !env.tmuxKilled(j)
    decreases |ids| - i
  {
    hide TmuxNameOf;
    if i < |ids| {
      KilledIff(env, ids, i + 1, KillTurn(env, i, ids[i], r), id);
    }
  }

  /** Killed and failed together are the requested ids as a multiset, whatever the tmux kills and exits do. */
  lemma ReconcileAccountsForEveryRequest(
    env: Environment, msg: Reconcile, running: RunningCommands, order: seq<string>, discovered: seq<ActiveSession>)
    requires forall id | id in order :: id in running
    ensures var ids := ToKill(msg, running, order, discovered);
      var done := KillAll(env, ids, running);
      && multiset(done.killed) + multiset(done.failed) == multiset(ids)
      && (msg.killUnrecognized ==> forall id | id in done.killed || id in done.failed :: id !in msg.keep)
  {
    var ids := ToKill(msg, running, order, discovered);
    KillFromAccounts(env, ids, 0, KillResult([], [], running));
    assert ids[0..] == ids;
    var done := KillAll(env, ids, running);
    forall id | id in done.killed || id in done.failed ensures id in ids {
      assert id in multiset(done.killed) + multiset(done.failed);
    }
  }

  /**
   * With `kill_unrecognized`, the tmux alias of a tracked, named session is asked to be killed if and
   * only if that alias is itself a tracked command and is not in the keep list.
   */
  lemma TrackedAliasIsKilledIff(
    msg: Reconcile, running: RunningCommands, order: seq<string>, discovered: seq<ActiveSession>, id: string)
    requires Enumerates(order, running) && FromTmux(discovered) && msg.killUnrecognized
    requires id in running && NameOf(running[id]) != ""
    ensures var alias := TmuxCommandId(NameOf(running[id]));
      alias in ToKill(msg, running, order, discovered) <==> alias in running && alias !in msg.keep
  {
    var name := NameOf(running[id]);
    var alias, tracked := TmuxCommandId(name), Tracked(running, order);
    assert ActiveSession(id, name) in tracked && name in KnownNames(tracked);
    forall s | s in MergeDiscovered(tracked, discovered) && s !in tracked ensures s.commandId != alias {
      AliasRoundTrip(s.name, s.commandId);
      AliasRoundTrip(name, alias);
    }
    if alias in running {
      assert ActiveSession(alias, NameOf(running[alias])) in MergeDiscovered(tracked, discovered);
    }
  }

  // Reports and kill lists of two-command tables, for the concrete runs below.

  lemma {:induction false} NothingNew(ids: set<string>, names: set<string>, discovered: seq<ActiveSession>)
    requires forall s | s in discovered :: s.name in names
    ensures NewSessions(ids, names, discovered) == []
  {
    if discovered != [] {
      NothingNew(ids, names, discovered[1..]);
    }
  }

  lemma PairIsReported(running: RunningCommands, x: string, y: string, discovered: seq<ActiveSession>)
    requires x in running && y in running
    requires forall s | s in discovered :: s.name != "" && s.name == NameOf(running[x])
    ensures Report(running, [x, y], discovered) == [x, y]
  {
    var sx, sy := ActiveSession(x, NameOf(running[x])), ActiveSession(y, NameOf(running[y]));
    assert [x, y][1..] == [y] && [y][1..] == [];
    assert Tracked(running, [y]) == [sy] + Tracked(running, []);
    assert Tracked(running, [x, y]) == [sx] + Tracked(running, [y]) == [sx, sy];
    assert sx in [sx, sy];
    NothingNew(KnownIds([sx, sy]), KnownNames([sx, sy]), discovered);
    assert MergeDiscovered([sx, sy], discovered) == [sx, sy] + [] == [sx, sy];
    assert [sx, sy][1..] == [sy] && [sy][1..] == [];
    assert Ids([sy]) == [y] + Ids([]);
    assert Ids([sx, sy]) == [x] + Ids([sy]) == [x, y];
  }

  lemma PairWithout(x: string, y: string, keep: seq<string>)
    ensures Without([x, y], keep) == (if x in keep then [] else [x]) + (if y in keep then [] else [y])
  {
    assert [x, y][1..] == [y] && [y][1..] == [];
    assert Without([y], keep) == if y in keep then [] else [y];
  }

  /** Two commands carry the name `build`; the one tracked under the tmux alias is killed although its namesake is kept. */
  lemma TrackedAliasIsKilled(env: Environment)
    requires env.tmuxKilled(0)
    ensures var running: RunningCommands := map["c1" := RunningCommand(Some("build")), "tmux:build" := RunningCommand(Some("build"))];
      var msg := Reconcile(["c1"], [], true);
      var order := ["c1", "tmux:build"];
      && Enumerates(order, running)
      && KillAll(env, ToKill(msg, running, order, []), running).killed == ["tmux:build"]
  {
    var running: RunningCommands := map["c1" := RunningCommand(Some("build")), "tmux:build" := RunningCommand(Some("build"))];
    PairIsReported(running, "c1", "tmux:build", []);
    PairWithout("c1", "tmux:build", ["c1"]);
    assert |"c1"| != |"tmux:build"|;
    OneTmuxKill(env, "tmux:build", running);
  }

  lemma OneCommandKill(env: Environment, id: string, running: RunningCommands)
    requires TmuxNameOf(id).None? && env.exited(0) == {}
    ensures KillAll(env, [id], running) == KillResult([id], [], running - {id})
  {
    var r := KillTurn(env, 0, id, KillResult([], [], running));
    assert running - {} == running;
    assert KillFrom(env, [id], 1, r) == r;
  }

  lemma OneTmuxKill(env: Environment, id: string, running: RunningCommands)
    requires TmuxNameOf(id).Some? && env.tmuxKilled(0)
    ensures KillAll(env, [id], running) == KillResult([id], [], running - env.exited(0))
  {
    var r := KillTurn(env, 0, id, KillResult([], [], running));
    assert KillFrom(env, [id], 1, r) == r;
  }

  /**
   * With `kill_unrecognized` and no command started meanwhile: the tracked non-tmux commands left are
   * exactly those in the keep list that did not exit by themselves.
   */
  lemma SurvivorsAreExactlyTheKept(
    env: Environment, msg: Reconcile, running: RunningCommands, order: seq<string>, discovered: seq<ActiveSession>, id: string)
    requires Enumerates(order, running) && msg.killUnrecognized && TmuxNameOf(id).None?
    ensures var ids := ToKill(msg, running, order, discovered);
      id in KillAll(env, ids, running).running <==>
        && id in running && id in msg.keep
        && (forall j | 0 <= j < |ids| :: id !in env.exited(j))
  {
    var ids := ToKill(msg, running, order, discovered);
    KillFromLeaves(env, ids, 0, KillResult([], [], running), id);
    assert ids[0..] == ids;
    if id in running {
      var s := ActiveSession(id, NameOf(running[id]));
      assert s in Tracked(running, order) && s in MergeDiscovered(Tracked(running, order), discovered);
      assert id in Report(running, order, discovered);
    }
  }

  /**
   * The kept list sent back is a fresh report, so it can name an id nobody asked to keep: a tmux
   * alias is in it exactly when it is itself tracked or no surviving command carries its name,
   * which is the case once the command that carried the name has been killed.
   */
  lemma AliasIsReportedKeptIff(left: RunningCommands, order: seq<string>, discovered: seq<ActiveSession>, name: string)
    requires Enumerates(order, left) && FromTmux(discovered)
    requires ActiveSession(TmuxCommandId(name), name) in discovered
    ensures TmuxCommandId(name) in Report(left, order, discovered) <==>
      TmuxCommandId(name) in left || forall id | id in left :: NameOf(left[id]) != name
  {
    var alias, tracked := TmuxCommandId(name), Tracked(left, order);
    var merged, s := MergeDiscovered(tracked, discovered), ActiveSession(alias, name);
    assert s.name != "";
    if alias in left {
      var t := ActiveSession(alias, NameOf(left[alias]));
      assert t in tracked && t in merged;
    } else if forall id | id in left :: NameOf(left[id]) != name {
      assert s in merged;
    } else {
      var id :| id in left && NameOf(left[id]) == name;
      assert ActiveSession(id, name) in tracked && name in KnownNames(tracked);
      forall x | x in merged ensures x.commandId != alias {
        if x !in tracked {
          AliasRoundTrip(x.name, x.commandId);
          AliasRoundTrip(name, alias);
        }
      }
    }
  }

  /** A whole reconcile of two commands, the first named, of which only the second is to be kept. */
  lemma KilledNameResurfaces(env: Environment, x: string, y: string, name: string)
    requires env.exited(0) == {} && x != y && name != ""
    requires TmuxNameOf(x).None? && TmuxCommandId(name) != y
    ensures var running: RunningCommands := map[x := RunningCommand(Some(name)), y := RunningCommand(None)];
      var discovered := [ActiveSession(TmuxCommandId(name), name)];
      var done := KillAll(env, ToKill(Reconcile([y], [], true), running, [x, y], discovered), running);
      && Enumerates([x, y], running) && FromTmux(discovered)
      && done.killed == [x] && Enumerates([y], done.running)
      && TmuxCommandId(name) in Report(done.running, [y], discovered)
  {
    var running: RunningCommands := map[x := RunningCommand(Some(name)), y := RunningCommand(None)];
    var discovered := [ActiveSession(TmuxCommandId(name), name)];
    hide Report, KillAll, TmuxCommandId, TmuxNameOf, Without;
    PairIsReported(running, x, y, discovered);
    PairWithout(x, y, [y]);
    assert ToKill(Reconcile([y], [], true), running, [x, y], discovered) == [x];
    hide ToKill;
    OneCommandKill(env, x, running);
    var left := running - {x};
    assert forall id | id in left :: id == y && NameOf(left[id]) == "";
    AliasIsReportedKeptIff(left, [y], discovered, name);
  }

  /**
   * Only `c2` is to be kept, so `c1`, named `build`, is killed; its tmux session is still discovered,
   * and the kept list of the reply names `tmux:build`, which nobody asked to keep.
   */
  lemma KeptListNamesAnAlias(env: Environment)
    requires env.exited(0) == {}
    ensures var running: RunningCommands := map["c1" := RunningCommand(Some("build")), "c2" := RunningCommand(None)];
      var discovered := [ActiveSession("tmux:build", "build")];
      var msg := Reconcile(["c2"], [], true);
      var done := KillAll(env, ToKill(msg, running, ["c1", "c2"], discovered), running);
      && done.killed == ["c1"] && Enumerates(["c2"], done.running)
      && "tmux:build" in Report(done.running, ["c2"], discovered) && "tmux:build" !in msg.keep
  {
    assert TmuxCommandId("build") == "tmux:build" && "c1"[1] != "c2"[1] && |"tmux:build"| != |"c2"|;
    hide Report, KillAll, ToKill;
    KilledNameResurfaces(env, "c1", "c2", "build");
  }

  // ---------- the agent's command table ----------

  class AgentSessions {
    var running: RunningCommands

    /** The second pass of `kill_sessions`; the table can shrink between turns while the lock is free. */
    method KillSessions(ids: seq<string>, env: Environment) returns (killed: seq<string>, failed: seq<string>)
      modifies this
      ensures KillResult(killed, failed, running) == KillAll(env, ids, old(running))
      ensures multiset(killed) + multiset(failed) == multiset(ids)
    {
      killed, failed := [], [];
      for i := 0 to |ids|
        invariant KillFrom(env, ids, i, KillResult(killed, failed, running)) == KillAll(env, ids, old(running))
      {
        running := running - env.exited(i);
        var id := ids[i];
        if TmuxNameOf(id).Some? {
          if env.tmuxKilled(i) {
            killed := killed + [id];
          } else {
            failed := failed + [id];
          }
        } else {
          running := running - {id};
          killed := killed + [id];
        }
      }
      KillFromAccounts(env, ids, 0, KillResult([], [], old(running)));
      assert ids[0..] == ids;
    }
  }
}
