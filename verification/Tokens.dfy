/** Single-use bootstrap tokens: an in-memory record map saved to one file after each change. */
module BootstrapTokens {
  import opened Outcomes

  datatype TokenError = Unknown | Expired | AlreadyConsumed | Revoked | SpiffeMismatch | Persistence

  datatype TokenRecord = TokenRecord(
    instance: string,
    spiffe: string,
    expiresAt: nat,
    consumedAt: Option<nat>,
    revokedAt: Option<nat>)

  /** Records by token hash. */
  type Records = map<string, TokenRecord>

  datatype Identity = Identity(instance: string, spiffe: string)

  /** The hash of a token, and the instance a SPIFFE identifier names (if it parses). */
  datatype TokenConfig = TokenConfig(hash: string -> string, instanceOf: string -> Option<string>)

  /** Memory, the saved file, and every token generated so far. */
  datatype TokenState = TokenState(memory: Records, disk: Records, issued: set<string>)

  const NO_TOKENS := TokenState(map[], map[], {})

  /** `saved` says whether the save that follows a change succeeds. */
  datatype Op =
    | Issue(token: string, instance: string, spiffe: string, ttl: nat, now: nat, saved: bool)
    | Consume(token: string, spiffe: string, now: nat, saved: bool)
    | Validate(token: string, spiffe: string, now: nat)
    | Revoke(token: string, now: nat, saved: bool)
    | Prune(now: nat, saved: bool)
    | Reload

  datatype Outcome =
    | Issued(expiresAt: nat)
    | Accepted(identity: Identity)
    | Refused(error: TokenError)
    | RevokeReply(revoked: bool)
    | PruneReply(removed: nat)
    | Rejected          // any other error return
    | Reloaded

  /** The checks shared by `consume` and `validate`, in order. */
  function Check(records: Records, key: string, spiffe: string, now: nat): Result<Identity, TokenError> {
    if key !in records then Failure(Unknown)
    else
      var r := records[key];
      if r.consumedAt.Some? then Failure(AlreadyConsumed)
      else if r.revokedAt.Some? then Failure(Revoked)
      else if now > r.expiresAt then Failure(Expired)
      else if r.spiffe != spiffe then Failure(SpiffeMismatch)
      else Success(Identity(r.instance, r.spiffe))
  }

  /** Pruning drops records that expired without being consumed, revoked ones included. */
  function Kept(records: Records, now: nat): (r: Records)
    ensures |r| <= |records|
  {
    var r := map key | key in records && (records[key].consumedAt.Some? || records[key].expiresAt >= now) :: records[key];
    assert records.Keys == r.Keys + (records.Keys - r.Keys);
    r
  }

  /** The new memory, saved or not. */
  function Store(s: TokenState, memory: Records, saved: bool): TokenState {
    TokenState(memory, if saved then memory else s.disk, s.issued)
  }

  function Exec(cfg: TokenConfig, s: TokenState, op: Op): (TokenState, Outcome) {
    match op
    case Issue(token, instance, spiffe, ttl, now, saved) =>
      if cfg.instanceOf(spiffe) != Some(instance) then (s, Rejected)
      else
        var record := TokenRecord(instance, spiffe, now + ttl, None, None);
        (Store(s, s.memory[cfg.hash(token) := record], saved).(issued := s.issued + {token}),
         if saved then Issued(now + ttl) else Rejected)
    case Consume(token, spiffe, now, saved) =>
      var key := cfg.hash(token);
      (match Check(s.memory, key, spiffe, now)
       case Failure(error) => (s, Refused(error))
       case Success(identity) =>
         var memory := s.memory[key := s.memory[key].(consumedAt := Some(now))];
         (Store(s, memory, saved), if saved then Accepted(identity) else Refused(Persistence)))
    case Validate(token, spiffe, now) =>
      (match Check(s.memory, cfg.hash(token), spiffe, now)
       case Failure(error) => (s, Refused(error))
       case Success(identity) => (s, Accepted(identity)))
    case Revoke(token, now, saved) =>
      var key := cfg.hash(token);
      if key !in s.memory || s.memory[key].consumedAt.Some? || s.memory[key].revokedAt.Some? then (s, RevokeReply(false))
      else
        var memory := s.memory[key := s.memory[key].(revokedAt := Some(now))];
        (Store(s, memory, saved), if saved then RevokeReply(true) else Rejected)
    case Prune(now, saved) =>
      var memory := Kept(s.memory, now);
      if |memory| == |s.memory| then (s.(memory := memory), PruneReply(0))
      else
        (Store(s, memory, saved), if saved then PruneReply(|s.memory| - |memory|) else Rejected)
    case Reload => (s.(memory := s.disk), Reloaded)
  }

  /** Generated tokens are never repeated. */
  predicate Fresh(s: TokenState, op: Op) {
    op.Issue? ==> op.token !in s.issued
  }

  function ExecAll(cfg: TokenConfig, s: TokenState, ops: seq<Op>): TokenState
    decreases |ops|
  {
    if ops == [] then s else ExecAll(cfg, Exec(cfg, s, ops[0]).0, ops[1..])
  }

  predicate FreshRun(cfg: TokenConfig, s: TokenState, ops: seq<Op>)
    decreases |ops|
  {
    ops == [] || (Fresh(s, ops[0]) && FreshRun(cfg, Exec(cfg, s, ops[0]).0, ops[1..]))
  }

  ghost predicate Injective(cfg: TokenConfig) {
    forall a, b :: cfg.hash(a) == cfg.hash(b) ==> a == b
  }

  /** Every record, in memory or on disk, belongs to a token that was generated. */
  ghost predicate TokenInv(cfg: TokenConfig, s: TokenState) {
    forall t :: cfg.hash(t) in s.memory || cfg.hash(t) in s.disk ==> t in s.issued
  }

  lemma ExecKeepsInv(cfg: TokenConfig, s: TokenState, op: Op)
    requires Injective(cfg) && TokenInv(cfg, s)
    ensures TokenInv(cfg, Exec(cfg, s, op).0) && s.issued <= Exec(cfg, s, op).0.issued
  {
    var s' := Exec(cfg, s, op).0;
    forall t | cfg.hash(t) in s'.memory || cfg.hash(t) in s'.disk ensures t in s'.issued {
      if op.Issue? && t != op.token {
        assert cfg.hash(t) != cfg.hash(op.token);
      }
    }
  }

  lemma {:induction false} RunKeepsTokenInv(cfg: TokenConfig, s: TokenState, ops: seq<Op>)
    requires Injective(cfg) && TokenInv(cfg, s)
    ensures TokenInv(cfg, ExecAll(cfg, s, ops)) && s.issued <= ExecAll(cfg, s, ops).issued
    decreases |ops|
  {
    if ops != [] {
      ExecKeepsInv(cfg, s, ops[0]);
      RunKeepsTokenInv(cfg, Exec(cfg, s, ops[0]).0, ops[1..]);
    }
  }

  // ---------- single use ----------

  /** The token is recorded as consumed in memory and in the file. */
  ghost predicate Spent(cfg: TokenConfig, s: TokenState, token: string) {
    var key := cfg.hash(token);
    && token in s.issued
    && key in s.memory && s.memory[key].consumedAt.Some?
    && key in s.disk && s.disk[key].consumedAt.Some?
  }

  lemma AcceptedConsumeSpends(cfg: TokenConfig, s: TokenState, op: Op)
    requires TokenInv(cfg, s)
    requires op.Consume? && Exec(cfg, s, op).1.Accepted?
    ensures Spent(cfg, Exec(cfg, s, op).0, op.token)
  {
    assert cfg.hash(op.token) in s.memory;
  }

  lemma SpentStaysSpent(cfg: TokenConfig, s: TokenState, op: Op, token: string)
    requires Injective(cfg) && Spent(cfg, s, token)
    requires Fresh(s, op)
    ensures Spent(cfg, Exec(cfg, s, op).0, token)
  {
    if op.Issue? {
      assert cfg.hash(op.token) != cfg.hash(token);
    }
  }

  lemma {:induction false} SpentStaysSpentRun(cfg: TokenConfig, s: TokenState, ops: seq<Op>, token: string)
    requires Injective(cfg) && Spent(cfg, s, token)
    requires FreshRun(cfg, s, ops)
    ensures Spent(cfg, ExecAll(cfg, s, ops), token)
    decreases |ops|
  {
    if ops != [] {
      SpentStaysSpent(cfg, s, ops[0], token);
      SpentStaysSpentRun(cfg, Exec(cfg, s, ops[0]).0, ops[1..], token);
    }
  }

  /**
   * Single use: after any run from an empty store, an accepted `consume` of a token, and any further
   * run (including failed saves and reloads), every attempt on that token is `AlreadyConsumed`.
   */
  lemma ConsumeSucceedsAtMostOnce(cfg: TokenConfig, before: seq<Op>, first: Op, between: seq<Op>, second: Op)
    requires Injective(cfg)
    requires first.Consume? && (second.Consume? || second.Validate?) && second.token == first.token
    requires FreshRun(cfg, NO_TOKENS, before)
    requires var s := ExecAll(cfg, NO_TOKENS, before);
      Exec(cfg, s, first).1.Accepted? && FreshRun(cfg, Exec(cfg, s, first).0, between)
    ensures var s := ExecAll(cfg, NO_TOKENS, before);
      Exec(cfg, ExecAll(cfg, Exec(cfg, s, first).0, between), second).1 == Refused(AlreadyConsumed)
  {
    RunKeepsTokenInv(cfg, NO_TOKENS, before);
    var s := ExecAll(cfg, NO_TOKENS, before);
    AcceptedConsumeSpends(cfg, s, first);
    SpentStaysSpentRun(cfg, Exec(cfg, s, first).0, between, first.token);
  }

  // ---------- revocation ----------

  /** Wherever the token is still recorded, it is recorded as revoked and not consumed. */
  ghost predicate Dead(cfg: TokenConfig, s: TokenState, token: string) {
    var key := cfg.hash(token);
    && token in s.issued
    && (key in s.memory ==> s.memory[key].revokedAt.Some? && s.memory[key].consumedAt.None?)
    && (key in s.disk ==> s.disk[key].revokedAt.Some? && s.disk[key].consumedAt.None?)
  }

  lemma DeadStaysDead(cfg: TokenConfig, s: TokenState, op: Op, token: string)
    requires Injective(cfg) && Dead(cfg, s, token)
    requires Fresh(s, op)
    ensures Dead(cfg, Exec(cfg, s, op).0, token)
  {
    if op.Issue? || op.Consume? || op.Revoke? {
      assert op.token != token ==> cfg.hash(op.token) != cfg.hash(token);
    }
  }

  lemma {:induction false} DeadStaysDeadRun(cfg: TokenConfig, s: TokenState, ops: seq<Op>, token: string)
    requires Injective(cfg) && Dead(cfg, s, token)
    requires FreshRun(cfg, s, ops)
    ensures Dead(cfg, ExecAll(cfg, s, ops), token)
    decreases |ops|
  {
    if ops != [] {
      DeadStaysDead(cfg, s, ops[0], token);
      DeadStaysDeadRun(cfg, Exec(cfg, s, ops[0]).0, ops[1..], token);
    }
  }

  /** After a revoke that reported success, no attempt on the token is ever accepted again. */
  lemma RevokedNeverAccepted(cfg: TokenConfig, before: seq<Op>, revoke: Op, between: seq<Op>, attempt: Op)
    requires Injective(cfg)
    requires revoke.Revoke? && (attempt.Consume? || attempt.Validate?) && attempt.token == revoke.token
    requires FreshRun(cfg, NO_TOKENS, before)
    requires var s := ExecAll(cfg, NO_TOKENS, before);
      Exec(cfg, s, revoke).1 == RevokeReply(true) && FreshRun(cfg, Exec(cfg, s, revoke).0, between)
    ensures var s := ExecAll(cfg, NO_TOKENS, before);
      var outcome := Exec(cfg, ExecAll(cfg, Exec(cfg, s, revoke).0, between), attempt).1;
      outcome == Refused(Revoked) || outcome == Refused(Unknown)
  {
    RunKeepsTokenInv(cfg, NO_TOKENS, before);
    var s := ExecAll(cfg, NO_TOKENS, before);
    assert cfg.hash(revoke.token) in s.memory;
    assert Dead(cfg, Exec(cfg, s, revoke).0, revoke.token);
    DeadStaysDeadRun(cfg, Exec(cfg, s, revoke).0, between, revoke.token);
  }

  /** A refused attempt leaves memory and file alone, unless the refusal is that the save failed. */
  lemma RefusalChangesNothing(cfg: TokenConfig, s: TokenState, op: Op)
    requires op.Consume? || op.Validate?
    requires Exec(cfg, s, op).1.Refused? && Exec(cfg, s, op).1.error != Persistence
    ensures Exec(cfg, s, op).0 == s
  {
  }

  /** A consume whose save failed reports an error, and a reload makes the token usable again. */
  lemma FailedSaveIsUndoneByReload(cfg: TokenConfig, s: TokenState, token: string, spiffe: string, now: nat)
    requires s.memory == s.disk
    requires Exec(cfg, s, Consume(token, spiffe, now, true)).1.Accepted?
    ensures var (failed, outcome) := Exec(cfg, s, Consume(token, spiffe, now, false));
      && outcome == Refused(Persistence)
      && Exec(cfg, failed, Consume(token, spiffe, now, true)).1 == Refused(AlreadyConsumed)
      && Exec(cfg, failed, Reload).0 == s
  {
  }

  // ---------- when an attempt is accepted ----------

  lemma {:induction false} ExecAppend(cfg: TokenConfig, s: TokenState, a: seq<Op>, b: seq<Op>)
    ensures ExecAll(cfg, s, a + b) == ExecAll(cfg, ExecAll(cfg, s, a), b)
    ensures FreshRun(cfg, s, a + b) <==> FreshRun(cfg, s, a) && FreshRun(cfg, ExecAll(cfg, s, a), b)
    decreases |a|
  {
    hide Exec, Fresh;
    if a == [] {
      assert a + b == b;
    } else {
      assert (a + b)[0] == a[0] && (a + b)[1..] == a[1..] + b;
      ExecAppend(cfg, Exec(cfg, s, a[0]).0, a[1..], b);
    }
  }

  /** The reply to the `i`-th operation of a run from the empty store. */
  function ReplyAt(cfg: TokenConfig, ops: seq<Op>, i: nat): Outcome
    requires i < |ops|
  {
    Exec(cfg, ExecAll(cfg, NO_TOKENS, ops[..i]), ops[i]).1
  }

  /** The record carries what the `i`-th operation, an issue, was asked for. */
  ghost predicate IssuedAt(cfg: TokenConfig, ops: seq<Op>, i: nat, key: string, r: TokenRecord) {
    && i < |ops| && ops[i].Issue? && cfg.hash(ops[i].token) == key
    && cfg.instanceOf(ops[i].spiffe) == Some(ops[i].instance)
    && r.instance == ops[i].instance && r.spiffe == ops[i].spiffe && r.expiresAt == ops[i].now + ops[i].ttl
  }

  ghost predicate AllIssued(cfg: TokenConfig, ops: seq<Op>, records: Records) {
    forall key | key in records :: exists i: nat :: IssuedAt(cfg, ops, i, key, records[key])
  }

  lemma IssuedGrows(cfg: TokenConfig, ops: seq<Op>, op: Op, records: Records)
    requires AllIssued(cfg, ops, records)
    ensures AllIssued(cfg, ops + [op], records)
  {
    forall key | key in records ensures exists i: nat :: IssuedAt(cfg, ops + [op], i, key, records[key]) {
      var i: nat :| IssuedAt(cfg, ops, i, key, records[key]);
      assert (ops + [op])[i] == ops[i];
      assert IssuedAt(cfg, ops + [op], i, key, records[key]);
    }
  }

  /** Two records that came from one issue. */
  predicate SameIssue(r: TokenRecord, r': TokenRecord) {
    r'.instance == r.instance && r'.spiffe == r.spiffe && r'.expiresAt == r.expiresAt
  }

  /** A step changes a record only in its marks, or adds one for its own issue. */
  lemma StepRecords(cfg: TokenConfig, s: TokenState, op: Op, key: string)
    requires key in Exec(cfg, s, op).0.memory
    ensures var r := Exec(cfg, s, op).0.memory[key];
      || (key in s.memory && SameIssue(s.memory[key], r))
      || (key in s.disk && SameIssue(s.disk[key], r))
      || (op.Issue? && cfg.instanceOf(op.spiffe) == Some(op.instance) && key == cfg.hash(op.token)
          && SameIssue(TokenRecord(op.instance, op.spiffe, op.now + op.ttl, None, None), r))
  {
  }

  /** The file stays or becomes the new memory. */
  lemma StepDisk(cfg: TokenConfig, s: TokenState, op: Op)
    ensures Exec(cfg, s, op).0.disk == s.disk || Exec(cfg, s, op).0.disk == Exec(cfg, s, op).0.memory
  {
  }

  lemma StepKeepsIssued(cfg: TokenConfig, ops: seq<Op>, s: TokenState, op: Op)
    requires AllIssued(cfg, ops, s.memory) && AllIssued(cfg, ops, s.disk)
    ensures AllIssued(cfg, ops + [op], Exec(cfg, s, op).0.memory) && AllIssued(cfg, ops + [op], Exec(cfg, s, op).0.disk)
  {
    hide Exec;
    IssuedGrows(cfg, ops, op, s.memory);
    IssuedGrows(cfg, ops, op, s.disk);
    StepDisk(cfg, s, op);
    var s', all := Exec(cfg, s, op).0, ops + [op];
    forall key | key in s'.memory ensures exists i: nat :: IssuedAt(cfg, all, i, key, s'.memory[key]) {
      StepRecords(cfg, s, op, key);
      if key in s.memory && SameIssue(s.memory[key], s'.memory[key]) {
        var i: nat :| IssuedAt(cfg, all, i, key, s.memory[key]);
        assert IssuedAt(cfg, all, i, key, s'.memory[key]);
      } else if key in s.disk && SameIssue(s.disk[key], s'.memory[key]) {
        var i: nat :| IssuedAt(cfg, all, i, key, s.disk[key]);
        assert IssuedAt(cfg, all, i, key, s'.memory[key]);
      } else {
        assert all[|ops|] == op;
        assert IssuedAt(cfg, all, |ops|, key, s'.memory[key]);
      }
    }
  }

  lemma {:induction false} RunKeepsIssued(cfg: TokenConfig, ops: seq<Op>)
    ensures var s := ExecAll(cfg, NO_TOKENS, ops); AllIssued(cfg, ops, s.memory) && AllIssued(cfg, ops, s.disk)
  {
    if ops != [] {
      var before, op := ops[..|ops| - 1], ops[|ops| - 1];
      RunKeepsIssued(cfg, before);
      assert ops == before + [op];
      ExecAppend(cfg, NO_TOKENS, before, [op]);
      var s := ExecAll(cfg, NO_TOKENS, before);
      assert [op][1..] == [] && ExecAll(cfg, Exec(cfg, s, op).0, []) == Exec(cfg, s, op).0;
      hide Exec, AllIssued;
      StepKeepsIssued(cfg, before, s, op);
    }
  }

  /** An accepted attempt was checked against a record: same identity asked for, in time, not yet used or revoked. */
  lemma AcceptedMatchesRecord(cfg: TokenConfig, s: TokenState, attempt: Op)
    requires (attempt.Consume? || attempt.Validate?) && Exec(cfg, s, attempt).1.Accepted?
    ensures var key := cfg.hash(attempt.token);
      && key in s.memory
      && s.memory[key].spiffe == attempt.spiffe && attempt.now <= s.memory[key].expiresAt
      && Exec(cfg, s, attempt).1 == Accepted(Identity(s.memory[key].instance, s.memory[key].spiffe))
  {
  }

  /** The attempt presents what the `i`-th operation issued, in time, and is answered with the identity issued. */
  ghost predicate EntitledBy(cfg: TokenConfig, ops: seq<Op>, i: nat, attempt: Op, identity: Identity)
    requires attempt.Consume? || attempt.Validate?
  {
    && i < |ops| && ops[i].Issue? && ops[i].token == attempt.token
    && cfg.instanceOf(ops[i].spiffe) == Some(ops[i].instance)
    && attempt.spiffe == ops[i].spiffe && attempt.now <= ops[i].now + ops[i].ttl
    && identity == Identity(ops[i].instance, ops[i].spiffe)
  }

  /** The `j`-th operation used the token up or revoked it. */
  ghost predicate EndedAt(cfg: TokenConfig, ops: seq<Op>, j: nat, token: string) {
    && j < |ops|
    && ((ops[j].Consume? && ops[j].token == token && ReplyAt(cfg, ops, j).Accepted?)
        || (ops[j].Revoke? && ops[j].token == token && ReplyAt(cfg, ops, j) == RevokeReply(true)))
  }

  /**
   * After any run an attempt is accepted only if the token was issued for exactly the identity presented,
   * its time is within the lifetime given then, no accepted consume and no successful revoke of it has
   * happened, and the identity returned is the one issued.
   */
  lemma AcceptedOnlyIfEntitled(cfg: TokenConfig, ops: seq<Op>, attempt: Op)
    requires Injective(cfg) && FreshRun(cfg, NO_TOKENS, ops)
    requires (attempt.Consume? || attempt.Validate?) && Exec(cfg, ExecAll(cfg, NO_TOKENS, ops), attempt).1.Accepted?
    ensures exists i: nat :: EntitledBy(cfg, ops, i, attempt, Exec(cfg, ExecAll(cfg, NO_TOKENS, ops), attempt).1.identity)
    ensures forall j: nat :: !EndedAt(cfg, ops, j, attempt.token)
  {
    var s, key := ExecAll(cfg, NO_TOKENS, ops), cfg.hash(attempt.token);
    RunKeepsIssued(cfg, ops);
    AcceptedMatchesRecord(cfg, s, attempt);
    hide Exec, ExecAll, FreshRun;
    var i: nat :| IssuedAt(cfg, ops, i, key, s.memory[key]);
    assert EntitledBy(cfg, ops, i, attempt, Exec(cfg, s, attempt).1.identity);
    forall j: nat ensures !EndedAt(cfg, ops, j, attempt.token) {
      if EndedAt(cfg, ops, j, attempt.token) {
        EndedIsRefused(cfg, ops, j, attempt);
      }
    }
  }

  lemma EndedIsRefused(cfg: TokenConfig, ops: seq<Op>, j: nat, attempt: Op)
    requires Injective(cfg) && FreshRun(cfg, NO_TOKENS, ops)
    requires (attempt.Consume? || attempt.Validate?) && EndedAt(cfg, ops, j, attempt.token)
    ensures !Exec(cfg, ExecAll(cfg, NO_TOKENS, ops), attempt).1.Accepted?
  {
    var before, op, between := ops[..j], ops[j], ops[j + 1..];
    assert ops == before + ([op] + between);
    ExecAppend(cfg, NO_TOKENS, before, [op] + between);
    var s := ExecAll(cfg, NO_TOKENS, before);
    assert ([op] + between)[0] == op && ([op] + between)[1..] == between;
    assert ExecAll(cfg, s, [op] + between) == ExecAll(cfg, Exec(cfg, s, op).0, between);
    assert FreshRun(cfg, Exec(cfg, s, op).0, between);
    hide Exec, ExecAll, FreshRun;
    if op.Consume? {
      ConsumeSucceedsAtMostOnce(cfg, before, op, between, attempt);
    } else {
      RevokedNeverAccepted(cfg, before, op, between, attempt);
    }
  }

  /** Memory and file agree, and hold the token's record as it was issued. */
  ghost predicate Live(cfg: TokenConfig, s: TokenState, issue: Op)
    requires issue.Issue?
  {
    && s.memory == s.disk && issue.token in s.issued
    && cfg.hash(issue.token) in s.memory
    && s.memory[cfg.hash(issue.token)] == TokenRecord(issue.instance, issue.spiffe, issue.now + issue.ttl, None, None)
  }

  /** The save works, the token is not used up or revoked by the step, and it is not pruned before it expires. */
  ghost predicate Undisturbed(cfg: TokenConfig, s: TokenState, issue: Op, op: Op)
    requires issue.Issue?
  {
    match op
    case Issue(_, _, _, _, _, saved) => saved
    case Consume(token, _, _, saved) => saved && !(token == issue.token && Exec(cfg, s, op).1.Accepted?)
    case Validate(_, _, _) => true
    case Revoke(token, _, saved) => saved && !(token == issue.token && Exec(cfg, s, op).1 == RevokeReply(true))
    case Prune(now, saved) => saved && now <= issue.now + issue.ttl
    case Reload => true
  }

  ghost predicate UndisturbedRun(cfg: TokenConfig, s: TokenState, issue: Op, ops: seq<Op>)
    requires issue.Issue?
    decreases |ops|
  {
    ops == [] || (Undisturbed(cfg, s, issue, ops[0]) && UndisturbedRun(cfg, Exec(cfg, s, ops[0]).0, issue, ops[1..]))
  }

  lemma SameSizePruneKeepsAll(records: Records, now: nat)
    ensures |Kept(records, now)| == |records| ==> Kept(records, now) == records
  {
    var kept := Kept(records, now);
    if |kept| == |records| {
      assert |records.Keys - kept.Keys| == |records.Keys| - |kept.Keys| by {
        assert kept.Keys <= records.Keys;
        assert records.Keys == kept.Keys + (records.Keys - kept.Keys);
      }
      assert records.Keys - kept.Keys == {};
    }
  }

  lemma StepKeepsLive(cfg: TokenConfig, s: TokenState, issue: Op, op: Op)
    requires Injective(cfg) && issue.Issue? && Live(cfg, s, issue)
    requires Fresh(s, op) && Undisturbed(cfg, s, issue, op)
    ensures Live(cfg, Exec(cfg, s, op).0, issue)
  {
    if op.Prune? {
      SameSizePruneKeepsAll(s.memory, op.now);
    } else if op.Issue? || op.Consume? || op.Revoke? {
      assert op.token != issue.token ==> cfg.hash(op.token) != cfg.hash(issue.token);
    }
  }

  lemma {:induction false} RunKeepsLive(cfg: TokenConfig, s: TokenState, issue: Op, ops: seq<Op>)
    requires Injective(cfg) && issue.Issue? && Live(cfg, s, issue)
    requires FreshRun(cfg, s, ops) && UndisturbedRun(cfg, s, issue, ops)
    ensures Live(cfg, ExecAll(cfg, s, ops), issue)
    decreases |ops|
  {
    hide Exec, Live, Undisturbed, Fresh;
    if ops != [] {
      StepKeepsLive(cfg, s, issue, ops[0]);
      RunKeepsLive(cfg, Exec(cfg, s, ops[0]).0, issue, ops[1..]);
    }
  }

  /**
   * The replies on a live token, whatever else was issued, attempted, saved or reloaded since: late is
   * Expired; in time with another identity is SpiffeMismatch; in time with its own it is accepted with the
   * identity issued, unless the save of a consume fails; and a revoke succeeds.
   */
  lemma LiveTokenReplies(cfg: TokenConfig, before: seq<Op>, issue: Op, between: seq<Op>, attempt: Op)
    requires Injective(cfg) && FreshRun(cfg, NO_TOKENS, before)
    requires issue.Issue? && issue.saved && cfg.instanceOf(issue.spiffe) == Some(issue.instance)
    requires var s := ExecAll(cfg, NO_TOKENS, before);
      && Fresh(s, issue) && FreshRun(cfg, Exec(cfg, s, issue).0, between)
      && UndisturbedRun(cfg, Exec(cfg, s, issue).0, issue, between)
    ensures var s := ExecAll(cfg, Exec(cfg, ExecAll(cfg, NO_TOKENS, before), issue).0, between);
      var reply := Exec(cfg, s, attempt).1;
      && ((attempt.Consume? || attempt.Validate?) && attempt.token == issue.token ==>
            if attempt.now > issue.now + issue.ttl then reply == Refused(Expired)
            else if attempt.spiffe != issue.spiffe then reply == Refused(SpiffeMismatch)
            else if attempt.Consume? && !attempt.saved then reply == Refused(Persistence)
            else reply == Accepted(Identity(issue.instance, issue.spiffe)))
      && (attempt.Revoke? && attempt.token == issue.token && attempt.saved ==> reply == RevokeReply(true))
  {
    var s0 := ExecAll(cfg, NO_TOKENS, before);
    assert Live(cfg, Exec(cfg, s0, issue).0, issue);
    RunKeepsLive(cfg, Exec(cfg, s0, issue).0, issue, between);
  }

  /** An issue is refused, and leaves everything as it was, exactly when the identity does not name the instance. */
  lemma IssueIsRefusedIff(cfg: TokenConfig, s: TokenState, op: Op)
    requires op.Issue? && op.saved
    ensures Exec(cfg, s, op).1 == Rejected <==> cfg.instanceOf(op.spiffe) != Some(op.instance)
    ensures Exec(cfg, s, op).1 == Rejected ==> Exec(cfg, s, op).0 == s
    ensures Exec(cfg, s, op).1 != Rejected ==> Exec(cfg, s, op).1 == Issued(op.now + op.ttl)
  {
  }

  // ---------- statistics ----------

  datatype Stats = Stats(active: nat, consumed: nat, revoked: nat, expired: nat)

  function Classify(r: TokenRecord, now: nat): Stats {
    if r.consumedAt.Some? then Stats(0, 1, 0, 0)
    else if r.revokedAt.Some? then Stats(0, 0, 1, 0)
    else if now > r.expiresAt then Stats(0, 0, 0, 1)
    else Stats(1, 0, 0, 0)
  }

  function CountWith(records: Records, now: nat, kind: Stats): nat {
    |set key | key in records && Classify(records[key], now) == kind|
  }

  lemma CountRemoved(records: Records, now: nat, kind: Stats, key: string)
    requires key in records
    ensures CountWith(records, now, kind) == CountWith(records - {key}, now, kind) + if Classify(records[key], now) == kind then 1 else 0
  {
    var whole := set k | k in records && Classify(records[k], now) == kind;
    var rest := set k | k in records - {key} && Classify((records - {key})[k], now) == kind;
    assert rest == whole - {key};
  }

  /** One pass over the records: each is counted in exactly one class. */
  method CountStats(records: Records, now: nat) returns (stats: Stats)
    ensures stats == Stats(
      CountWith(records, now, Stats(1, 0, 0, 0)), CountWith(records, now, Stats(0, 1, 0, 0)),
      CountWith(records, now, Stats(0, 0, 1, 0)), CountWith(records, now, Stats(0, 0, 0, 1)))
    ensures stats.active + stats.consumed + stats.revoked + stats.expired == |records|
  {
    stats := Stats(0, 0, 0, 0);
    var left := records;
    while left != map[]
      invariant left.Keys <= records.Keys && forall key | key in left :: left[key] == records[key]
      invariant stats.active + CountWith(left, now, Stats(1, 0, 0, 0)) == CountWith(records, now, Stats(1, 0, 0, 0))
      invariant stats.consumed + CountWith(left, now, Stats(0, 1, 0, 0)) == CountWith(records, now, Stats(0, 1, 0, 0))
      invariant stats.revoked + CountWith(left, now, Stats(0, 0, 1, 0)) == CountWith(records, now, Stats(0, 0, 1, 0))
      invariant stats.expired + CountWith(left, now, Stats(0, 0, 0, 1)) == CountWith(records, now, Stats(0, 0, 0, 1))
      invariant stats.active + stats.consumed + stats.revoked + stats.expired + |left| == |records|
      decreases |left|
    {
      var key :| key in left;
      var one := Classify(left[key], now);
      CountRemoved(left, now, Stats(1, 0, 0, 0), key);
      CountRemoved(left, now, Stats(0, 1, 0, 0), key);
      CountRemoved(left, now, Stats(0, 0, 1, 0), key);
      CountRemoved(left, now, Stats(0, 0, 0, 1), key);
      assert (left - {key}).Keys == left.Keys - {key};
      stats := Stats(stats.active + one.active, stats.consumed + one.consumed,
                     stats.revoked + one.revoked, stats.expired + one.expired);
      left := left - {key};
    }
  }

  /** The class a recorded token is counted in is the reply an attempt with its own identity would get. */
  lemma StatsAgreeWithAttempts(cfg: TokenConfig, s: TokenState, token: string, now: nat)
    requires cfg.hash(token) in s.memory
    ensures var r := s.memory[cfg.hash(token)];
      var reply := Exec(cfg, s, Validate(token, r.spiffe, now)).1;
      && (Classify(r, now) == Stats(1, 0, 0, 0) <==> reply.Accepted?)
      && (Classify(r, now) == Stats(0, 1, 0, 0) <==> reply == Refused(AlreadyConsumed))
      && (Classify(r, now) == Stats(0, 0, 1, 0) <==> reply == Refused(Revoked))
      && (Classify(r, now) == Stats(0, 0, 0, 1) <==> reply == Refused(Expired))
  {
  }

  /** A record is pruned exactly when it has expired and was never consumed; the others stay as they are. */
  lemma PrunedIff(records: Records, now: nat, key: string)
    requires key in records
    ensures key in Kept(records, now) <==> records[key].consumedAt.Some? || now <= records[key].expiresAt
    ensures key in Kept(records, now) ==> Kept(records, now)[key] == records[key]
  {
  }

  /** A prune replies with the number of records that had expired unconsumed, and drops exactly those. */
  lemma PruneReplies(cfg: TokenConfig, s: TokenState, now: nat)
    ensures var (after, reply) := Exec(cfg, s, Prune(now, true));
      && reply == PruneReply(|set key | key in s.memory && s.memory[key].consumedAt.None? && s.memory[key].expiresAt < now|)
      && after.memory == Kept(s.memory, now)
  {
    var kept := Kept(s.memory, now);
    var gone := set key | key in s.memory && s.memory[key].consumedAt.None? && s.memory[key].expiresAt < now;
    assert s.memory.Keys == kept.Keys + gone && kept.Keys !! gone;
    assert |s.memory.Keys| == |kept.Keys| + |gone|;
    if |kept| == |s.memory| {
      SameSizePruneKeepsAll(s.memory, now);
    }
  }

  /** An accepted consume or a successful revoke marks its own record with its own time, and nothing else. */
  lemma OnlyItsOwnRecordIsMarked(cfg: TokenConfig, s: TokenState, op: Op)
    requires (op.Consume? && Exec(cfg, s, op).1.Accepted?) || (op.Revoke? && Exec(cfg, s, op).1 == RevokeReply(true))
    ensures var after, key := Exec(cfg, s, op).0, cfg.hash(op.token);
      && key in s.memory && after.memory.Keys == s.memory.Keys && after.disk == after.memory
      && (forall other | other in s.memory && other != key :: after.memory[other] == s.memory[other])
      && after.memory[key] == if op.Consume? then s.memory[key].(consumedAt := Some(op.now)) else s.memory[key].(revokedAt := Some(op.now))
  {
  }

  /** Pruning removes every expired record and keeps every active and every consumed one. */
  lemma PruneKeepsActiveAndConsumed(records: Records, now: nat)
    ensures CountWith(Kept(records, now), now, Stats(0, 0, 0, 1)) == 0
    ensures CountWith(Kept(records, now), now, Stats(1, 0, 0, 0)) == CountWith(records, now, Stats(1, 0, 0, 0))
    ensures CountWith(Kept(records, now), now, Stats(0, 1, 0, 0)) == CountWith(records, now, Stats(0, 1, 0, 0))
  {
    var kept := Kept(records, now);
    assert (set key | key in kept && Classify(kept[key], now) == Stats(0, 0, 0, 1)) == {};
    assert (set key | key in kept && Classify(kept[key], now) == Stats(1, 0, 0, 0))
        == (set key | key in records && Classify(records[key], now) == Stats(1, 0, 0, 0));
    assert (set key | key in kept && Classify(kept[key], now) == Stats(0, 1, 0, 0))
        == (set key | key in records && Classify(records[key], now) == Stats(0, 1, 0, 0));
  }

  // ---------- the store object ----------

  class TokenFile {
    var records: Records

    constructor ()
      ensures records == map[]
    {
      records := map[];
    }
  }

  class BootstrapTokenStore {
    const cfg: TokenConfig
    const file: TokenFile
    var records: Records
    ghost var issued: set<string>

    ghost function State(): TokenState reads this, file {
      TokenState(records, file.records, issued)
    }

    constructor LoadOrCreate(cfg: TokenConfig, file: TokenFile, ghost issued: set<string>)
      ensures this.cfg == cfg && this.file == file
      ensures State() == TokenState(file.records, file.records, issued)
    {
      this.cfg, this.file, this.records, this.issued := cfg, file, file.records, issued;
    }

    method Save(saved: bool)
      modifies file
      ensures file.records == if saved then records else old(file.records)
    {
      if saved {
        file.records := records;
      }
    }

    method IssueToken(token: string, instance: string, spiffe: string, ttl: nat, now: nat, saved: bool) returns (r: Outcome)
      modifies this, file
      ensures (State(), r) == Exec(cfg, old(State()), Issue(token, instance, spiffe, ttl, now, saved))
    {
      if cfg.instanceOf(spiffe) != Some(instance) {
        return Rejected;
      }
      records := records[cfg.hash(token) := TokenRecord(instance, spiffe, now + ttl, None, None)];
      issued := issued + {token};
      Save(saved);
      r := if saved then Issued(now + ttl) else Rejected;
    }

    method ConsumeToken(token: string, spiffe: string, now: nat, saved: bool) returns (r: Outcome)
      modifies this, file
      ensures (State(), r) == Exec(cfg, old(State()), Consume(token, spiffe, now, saved))
    {
      var key := cfg.hash(token);
      if key !in records {
        return Refused(Unknown);
      }
      var record := records[key];
      if record.consumedAt.Some? {
        return Refused(AlreadyConsumed);
      }
      if record.revokedAt.Some? {
        return Refused(Revoked);
      }
      if now > record.expiresAt {
        return Refused(Expired);
      }
      if record.spiffe != spiffe {
        return Refused(SpiffeMismatch);
      }
      records := records[key := record.(consumedAt := Some(now))];
      Save(saved);
      r := if saved then Accepted(Identity(record.instance, record.spiffe)) else Refused(Persistence);
    }

    method ValidateToken(token: string, spiffe: string, now: nat) returns (r: Outcome)
      ensures (State(), r) == Exec(cfg, State(), Validate(token, spiffe, now))
    {
      var key := cfg.hash(token);
      if key !in records {
        return Refused(Unknown);
      }
      var record := records[key];
      if record.consumedAt.Some? {
        return Refused(AlreadyConsumed);
      }
      if record.revokedAt.Some? {
        return Refused(Revoked);
      }
      if now > record.expiresAt {
        return Refused(Expired);
      }
      if record.spiffe != spiffe {
        return Refused(SpiffeMismatch);
      }
      r := Accepted(Identity(record.instance, record.spiffe));
    }

    method RevokeToken(token: string, now: nat, saved: bool) returns (r: Outcome)
      modifies this, file
      ensures (State(), r) == Exec(cfg, old(State()), Revoke(token, now, saved))
    {
      var key := cfg.hash(token);
      if key !in records || records[key].consumedAt.Some? || records[key].revokedAt.Some? {
        return RevokeReply(false);
      }
      records := records[key := records[key].(revokedAt := Some(now))];
      Save(saved);
      r := if saved then RevokeReply(true) else Rejected;
    }

    method PruneExpiredUnconsumed(now: nat, saved: bool) returns (r: Outcome)
      modifies this, file
      ensures (State(), r) == Exec(cfg, old(State()), Prune(now, saved))
    {
      var before := |records|;
      records := Kept(records, now);
      var removed := before - |records|;
      if removed == 0 {
        return PruneReply(0);
      }
      Save(saved);
      r := if saved then PruneReply(removed) else Rejected;
    }
  }
}
