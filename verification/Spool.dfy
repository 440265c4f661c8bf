/** The agent's bounded durable spool: a record file plus a high-watermark file. */
module ActivitySpools {
  import opened Outcomes
  import opened ActivityEvents

  datatype SpoolError = Full(used: nat, incoming: nat, limit: nat) | Invalid | Io

  /** The two files that survive a crash. An absent watermark file reads as 0. */
  datatype SpoolFiles = SpoolFiles(lines: seq<Json>, mark: nat)

  /** The quota and the length of a record's serialised line (newline included). */
  datatype SpoolConfig = SpoolConfig(maxBytes: nat, lineBytes: Json -> nat)

  // ---------- record helpers ----------

  function RecordSequence(v: Json): Option<nat> {
    match v.collectorSequence
    case Some(n) => if n <= U64_MAX then Some(n) else None
    case None => None
  }

  /** The sort key of a record; a record without a sequence sorts last. */
  function SequenceOf(v: Json): nat {
    match RecordSequence(v)
    case Some(n) => n
    case None => U64_MAX
  }

  predicate ValidRecord(v: Json) {
    && v.schemaVersion == Some(SCHEMA_VERSION)
    && RecordSequence(v).Some?
    && RecordSequence(v).value > 0
    && v.eventId.Some?
  }

  function SaturatingAdd(a: nat, b: nat): nat {
    if a + b <= U64_MAX then a + b else U64_MAX
  }

  function FileBytes(cfg: SpoolConfig, lines: seq<Json>): nat {
    if lines == [] then 0 else cfg.lineBytes(lines[0]) + FileBytes(cfg, lines[1..])
  }

  predicate Ascending(s: seq<Json>) {
    forall i, j | 0 <= i < j < |s| :: SequenceOf(s[i]) <= SequenceOf(s[j])
  }

  /** Inserts before the first record with the same or a higher key. */
  function InsertBySequence(x: Json, s: seq<Json>): seq<Json> {
    if s == [] || SequenceOf(x) <= SequenceOf(s[0]) then [x] + s
    else [s[0]] + InsertBySequence(x, s[1..])
  }

  /** `sort_by_key` on the sequence: a stable sort, so equal keys keep their file order. */
  function SortBySequence(s: seq<Json>): seq<Json> {
    if s == [] then [] else InsertBySequence(s[0], SortBySequence(s[1..]))
  }

  lemma {:induction false} SortedFileIsItsOwnRecordList(s: seq<Json>)
    requires Ascending(s)
    ensures SortBySequence(s) == s
  {
    if s != [] {
      SortedFileIsItsOwnRecordList(s[1..]);
      if |s| > 1 {
        assert SequenceOf(s[0]) <= SequenceOf(s[1]);
      }
    }
  }

  lemma {:induction false} FileBytesAppend(cfg: SpoolConfig, lines: seq<Json>, e: Json)
    ensures FileBytes(cfg, lines + [e]) == FileBytes(cfg, lines) + cfg.lineBytes(e)
  {
    if lines == [] {
      assert lines + [e] == [e];
    } else {
      assert (lines + [e])[1..] == lines[1..] + [e];
      FileBytesAppend(cfg, lines[1..], e);
    }
  }

  lemma {:induction false} FileBytesSuffix(cfg: SpoolConfig, lines: seq<Json>, k: nat)
    requires k <= |lines|
    ensures FileBytes(cfg, lines[k..]) <= FileBytes(cfg, lines)
  {
    if k > 0 {
      assert lines[k..] == lines[1..][k - 1..];
      FileBytesSuffix(cfg, lines[1..], k - 1);
    }
  }

  // ---------- operations on the files ----------

  /** Reads the record file: any malformed record fails the whole read. */
  function ReadRecords(f: SpoolFiles): Result<seq<Json>, SpoolError> {
    if forall v | v in f.lines :: ValidRecord(v) then Success(SortBySequence(f.lines)) else Failure(Invalid)
  }

  function LastSequence(records: seq<Json>): nat {
    if records == [] then 0 else SequenceOf(records[|records| - 1])
  }

  function NextSequence(f: SpoolFiles): Result<nat, SpoolError> {
    match ReadRecords(f)
    case Failure(error) => Failure(error)
    case Success(records) =>
      var last := LastSequence(records);
      Success(SaturatingAdd(if last > f.mark then last else f.mark, 1))
  }

  /** `open`: repairs a watermark that is behind the last record. */
  function OpenFiles(cfg: SpoolConfig, f: SpoolFiles): Result<SpoolFiles, SpoolError> {
    if cfg.maxBytes == 0 then Failure(Invalid)
    else
      match ReadRecords(f)
      case Failure(error) => Failure(error)
      case Success(records) =>
        var last := LastSequence(records);
        Success(if last > f.mark then f.(mark := last) else f)
  }

  predicate Clashes(x: Json, e: Json) {
    SequenceOf(x) == SequenceOf(e) || x.eventId == e.eventId
  }

  /** The first record that shares the new event's sequence or identifier. */
  function FirstClash(records: seq<Json>, e: Json): (r: Option<Json>)
    ensures r.None? <==> forall x | x in records :: !Clashes(x, e)
    ensures r.Some? ==> r.value in records && Clashes(r.value, e)
  {
    if records == [] then None
    else if Clashes(records[0], e) then Some(records[0])
    else FirstClash(records[1..], e)
  }

  datatype Verdict = Refuse(error: SpoolError) | Present | Write

  /** Everything `append` decides before it touches a file. */
  function Judge(cfg: SpoolConfig, f: SpoolFiles, e: Json): Verdict {
    if !ValidRecord(e) then Refuse(Invalid)
    else
      match ReadRecords(f)
      case Failure(error) => Refuse(error)
      case Success(records) =>
        match FirstClash(records, e)
        case Some(x) => if x == e then Present else Refuse(Invalid)
        case None =>
          if SequenceOf(e) != SaturatingAdd(f.mark, 1) then Refuse(Invalid)
          else
            var used, incoming := FileBytes(cfg, f.lines), cfg.lineBytes(e);
            if SaturatingAdd(used, incoming) > cfg.maxBytes then Refuse(Full(used, incoming, cfg.maxBytes))
            else Write
  }

  /** The files after `append`; `fault` says the watermark write failed after the record write. */
  function AppendFiles(cfg: SpoolConfig, f: SpoolFiles, e: Json, fault: bool): SpoolFiles {
    if Judge(cfg, f, e) != Write then f
    else SpoolFiles(f.lines + [e], if fault then f.mark else SequenceOf(e))
  }

  function AppendOutcome(cfg: SpoolConfig, f: SpoolFiles, e: Json, fault: bool): Result<(), SpoolError> {
    match Judge(cfg, f, e)
    case Refuse(error) => Failure(error)
    case Present => Success(())
    case Write => if fault then Failure(Io) else Success(())
  }

  function Above(records: seq<Json>, n: nat): (r: seq<Json>)
    ensures forall v :: v in r <==> v in records && SequenceOf(v) > n
  {
    if records == [] then []
    else if SequenceOf(records[0]) > n then [records[0]] + Above(records[1..], n)
    else Above(records[1..], n)
  }

  function AcknowledgeFiles(f: SpoolFiles, n: nat): SpoolFiles {
    match ReadRecords(f)
    case Failure(_) => f
    case Success(records) => f.(lines := Above(records, n))
  }

  function PendingRecords(f: SpoolFiles, limit: nat): Result<seq<Json>, SpoolError> {
    match ReadRecords(f)
    case Failure(error) => Failure(error)
    case Success(records) =>
      var n := if limit < 1000 then limit else 1000;
      Success(if n < |records| then records[..n] else records)
  }

  // ---------- runs ----------

  datatype SpoolStep =
    | Append(event: Json)
    | TornAppend(event: Json)      // the record is written, the watermark write fails
    | Acknowledge(through: nat)
    | Reopen

  /** The files plus the history of every record ever written to them. */
  datatype SpoolRun = SpoolRun(files: SpoolFiles, written: seq<Json>)

  const EMPTY_SPOOL := SpoolRun(SpoolFiles([], 0), [])

  function Take(cfg: SpoolConfig, s: SpoolRun, step: SpoolStep): SpoolRun {
    match step
    case Append(e) => WriteStep(cfg, s, e, false)
    case TornAppend(e) => WriteStep(cfg, s, e, true)
    case Acknowledge(n) => s.(files := AcknowledgeFiles(s.files, n))
    case Reopen =>
      match OpenFiles(cfg, s.files)
      case Success(files) => s.(files := files)
      case Failure(_) => s
  }

  function WriteStep(cfg: SpoolConfig, s: SpoolRun, e: Json, fault: bool): SpoolRun {
    if Judge(cfg, s.files, e) != Write then s
    else SpoolRun(AppendFiles(cfg, s.files, e, fault), s.written + [e])
  }

  /** The last record is ahead of the watermark: an append's second write has not happened. */
  predicate Torn(f: SpoolFiles) {
    LastSequence(f.lines) > f.mark
  }

  /** An acknowledgement must not remove a torn record before the spool is reopened. */
  predicate Allowed(f: SpoolFiles, step: SpoolStep) {
    step.Acknowledge? && Torn(f) ==> step.through < LastSequence(f.lines)
  }

  function Execute(cfg: SpoolConfig, s: SpoolRun, steps: seq<SpoolStep>): SpoolRun
    decreases |steps|
  {
    if steps == [] then s else Execute(cfg, Take(cfg, s, steps[0]), steps[1..])
  }

  predicate AllowedRun(cfg: SpoolConfig, s: SpoolRun, steps: seq<SpoolStep>)
    decreases |steps|
  {
    steps == [] || (Allowed(s.files, steps[0]) && AllowedRun(cfg, Take(cfg, s, steps[0]), steps[1..]))
  }

  // ---------- what every run keeps ----------

  ghost predicate Contiguous(s: seq<Json>) {
    forall i | 0 <= i < |s| :: SequenceOf(s[i]) == SequenceOf(s[0]) + i
  }

  /** The highest sequence on disk in either file. */
  function Top(f: SpoolFiles): nat {
    if Torn(f) then LastSequence(f.lines) else f.mark
  }

  ghost predicate WithinQuota(cfg: SpoolConfig, f: SpoolFiles) {
    FileBytes(cfg, f.lines) <= cfg.maxBytes || cfg.maxBytes >= U64_MAX
  }

  ghost predicate FilesInv(cfg: SpoolConfig, f: SpoolFiles) {
    && (forall v | v in f.lines :: ValidRecord(v))
    && Contiguous(f.lines)
    && f.mark <= U64_MAX
    && (f.lines != [] ==> LastSequence(f.lines) == f.mark || LastSequence(f.lines) == f.mark + 1)
    && WithinQuota(cfg, f)
    && DistinctRecordIds(f.lines)
  }

  /** No two pending records share an identifier. */
  ghost predicate DistinctRecordIds(lines: seq<Json>) {
    forall i, j | 0 <= i < j < |lines| :: lines[i].eventId != lines[j].eventId
  }

  /** No sequence below the 64-bit limit is ever bound to two different events. */
  ghost predicate BoundOnce(written: seq<Json>) {
    forall v, w | v in written && w in written && SequenceOf(v) == SequenceOf(w) < U64_MAX :: v == w
  }

  ghost predicate WasWritten(written: seq<Json>, n: nat) {
    exists w :: w in written && SequenceOf(w) == n
  }

  /** The sequences ever written are exactly 1..Top. */
  ghost predicate Covers(written: seq<Json>, top: nat) {
    && (forall w | w in written :: ValidRecord(w) && SequenceOf(w) <= top)
    && (forall n | 1 <= n <= top :: WasWritten(written, n))
  }

  ghost predicate SpoolInv(cfg: SpoolConfig, s: SpoolRun) {
    && FilesInv(cfg, s.files)
    && (forall v | v in s.files.lines :: v in s.written)
    && BoundOnce(s.written)
    && Covers(s.written, Top(s.files))
  }

  /** Under the invariant the sorted record list is the file itself. */
  lemma RecordsAreLines(cfg: SpoolConfig, f: SpoolFiles)
    requires FilesInv(cfg, f)
    ensures ReadRecords(f) == Success(f.lines)
  {
    forall i, j | 0 <= i < j < |f.lines| ensures SequenceOf(f.lines[i]) <= SequenceOf(f.lines[j]) {
      assert SequenceOf(f.lines[i]) == SequenceOf(f.lines[0]) + i;
      assert SequenceOf(f.lines[j]) == SequenceOf(f.lines[0]) + j;
    }
    SortedFileIsItsOwnRecordList(f.lines);
  }

  /** `acknowledge_through` on a contiguous file drops a prefix. */
  lemma {:induction false} AboveIsSuffix(s: seq<Json>, n: nat)
    requires Contiguous(s)
    ensures exists k :: 0 <= k <= |s| && Above(s, n) == s[k..]
  {
    if s == [] {
      assert Above(s, n) == s[0..];
    } else if SequenceOf(s[0]) > n {
      AboveOfAll(s, n);
      assert Above(s, n) == s[0..];
    } else {
      assert Contiguous(s[1..]) by {
        forall i | 0 <= i < |s[1..]| ensures SequenceOf(s[1..][i]) == SequenceOf(s[1..][0]) + i {
          assert s[1..][i] == s[i + 1];
        }
      }
      AboveIsSuffix(s[1..], n);
      var k :| 0 <= k <= |s[1..]| && Above(s[1..], n) == s[1..][k..];
      assert s[1..][k..] == s[k + 1..];
    }
  }

  lemma {:induction false} AboveOfAll(s: seq<Json>, n: nat)
    requires forall v | v in s :: SequenceOf(v) > n
    ensures Above(s, n) == s
  {
    if s != [] {
      AboveOfAll(s[1..], n);
    }
  }

  lemma {:induction false} AboveOfNone(s: seq<Json>, n: nat)
    requires forall v | v in s :: SequenceOf(v) <= n
    ensures Above(s, n) == []
  {
    if s != [] {
      AboveOfNone(s[1..], n);
    }
  }

  lemma SuffixIsContiguous(s: seq<Json>, k: nat)
    requires Contiguous(s) && k <= |s|
    ensures Contiguous(s[k..])
  {
    forall i | 0 <= i < |s[k..]| ensures SequenceOf(s[k..][i]) == SequenceOf(s[k..][0]) + i {
      assert s[k..][i] == s[k + i] && s[k..][0] == s[k];
    }
  }

  lemma WriteFacts(cfg: SpoolConfig, f: SpoolFiles, e: Json)
    requires FilesInv(cfg, f)
    requires Judge(cfg, f, e) == Write
    ensures ValidRecord(e) && !Torn(f)
    ensures SequenceOf(e) == SaturatingAdd(f.mark, 1)
    ensures f.lines != [] ==> f.mark < U64_MAX
    ensures forall x | x in f.lines :: !Clashes(x, e)
    ensures SaturatingAdd(FileBytes(cfg, f.lines), cfg.lineBytes(e)) <= cfg.maxBytes
  {
    RecordsAreLines(cfg, f);
    if f.lines != [] {
      var last := f.lines[|f.lines| - 1];
      assert last in f.lines && !Clashes(last, e);
    }
  }

  lemma AppendedIdsDistinct(lines: seq<Json>, e: Json)
    requires DistinctRecordIds(lines) && forall x | x in lines :: !Clashes(x, e)
    ensures DistinctRecordIds(lines + [e])
  {
    var all := lines + [e];
    forall i, j | 0 <= i < j < |all| ensures all[i].eventId != all[j].eventId {
      assert all[i] in lines;
    }
  }

  lemma SuffixIdsDistinct(lines: seq<Json>, k: nat)
    requires DistinctRecordIds(lines) && k <= |lines|
    ensures DistinctRecordIds(lines[k..])
  {
    assert forall i | 0 <= i < |lines[k..]| :: lines[k..][i] == lines[k + i];
  }

  lemma WriteKeepsFiles(cfg: SpoolConfig, f: SpoolFiles, e: Json, fault: bool)
    requires FilesInv(cfg, f)
    requires Judge(cfg, f, e) == Write
    ensures FilesInv(cfg, AppendFiles(cfg, f, e, fault))
    ensures Top(AppendFiles(cfg, f, e, fault)) == SequenceOf(e)
  {
    WriteFacts(cfg, f, e);
    FileBytesAppend(cfg, f.lines, e);
    var lines := f.lines + [e];
    AppendedIdsDistinct(f.lines, e);
    forall i | 0 <= i < |lines| ensures SequenceOf(lines[i]) == SequenceOf(lines[0]) + i {
      if f.lines != [] {
        assert SequenceOf(f.lines[|f.lines| - 1]) == SequenceOf(f.lines[0]) + |f.lines| - 1;
      }
    }
  }

  lemma AppendedCovers(written: seq<Json>, top: nat, e: Json)
    requires Covers(written, top)
    requires ValidRecord(e) && top <= SequenceOf(e) <= top + 1
    ensures Covers(written + [e], SequenceOf(e))
  {
    forall n | 1 <= n <= SequenceOf(e) ensures WasWritten(written + [e], n) {
      if n <= top {
        assert WasWritten(written, n);
        var w :| w in written && SequenceOf(w) == n;
        assert w in written + [e];
      } else {
        assert e in written + [e];
      }
    }
  }

  lemma AppendedBoundOnce(written: seq<Json>, e: Json)
    requires BoundOnce(written)
    requires SequenceOf(e) < U64_MAX ==> forall w | w in written :: SequenceOf(w) < SequenceOf(e)
    ensures BoundOnce(written + [e])
  {
  }

  lemma WriteKeepsInv(cfg: SpoolConfig, s: SpoolRun, e: Json, fault: bool)
    requires SpoolInv(cfg, s)
    ensures SpoolInv(cfg, WriteStep(cfg, s, e, fault))
  {
    if Judge(cfg, s.files, e) == Write {
      WriteFacts(cfg, s.files, e);
      WriteKeepsFiles(cfg, s.files, e, fault);
      AppendedCovers(s.written, Top(s.files), e);
      hide FilesInv, Judge, BoundOnce;
      AppendedBoundOnce(s.written, e);
    }
  }

  lemma AcknowledgeDropsPrefix(cfg: SpoolConfig, f: SpoolFiles, n: nat) returns (k: nat)
    requires FilesInv(cfg, f)
    ensures k <= |f.lines|
    ensures AcknowledgeFiles(f, n) == SpoolFiles(f.lines[k..], f.mark)
    ensures forall v :: v in f.lines[k..] <==> v in f.lines && SequenceOf(v) > n
  {
    RecordsAreLines(cfg, f);
    AboveIsSuffix(f.lines, n);
    k :| 0 <= k <= |f.lines| && Above(f.lines, n) == f.lines[k..];
  }

  lemma AcknowledgeKeepsFiles(cfg: SpoolConfig, f: SpoolFiles, n: nat)
    requires FilesInv(cfg, f)
    ensures FilesInv(cfg, AcknowledgeFiles(f, n))
    ensures forall v :: v in AcknowledgeFiles(f, n).lines <==> v in f.lines && SequenceOf(v) > n
    ensures Allowed(f, Acknowledge(n)) ==> Top(AcknowledgeFiles(f, n)) == Top(f)
  {
    var k := AcknowledgeDropsPrefix(cfg, f, n);
    var lines := f.lines[k..];
    FileBytesSuffix(cfg, f.lines, k);
    SuffixIsContiguous(f.lines, k);
    SuffixIdsDistinct(f.lines, k);
    assert forall v | v in lines :: v in f.lines;
    assert lines != [] ==> LastSequence(lines) == LastSequence(f.lines);
    assert f.lines != [] && n < LastSequence(f.lines) ==> f.lines[|f.lines| - 1] in lines;
  }

  /** Opening a file of the invariant only moves the watermark, to the last record if that is ahead. */
  lemma OpenedFiles(cfg: SpoolConfig, f: SpoolFiles)
    requires FilesInv(cfg, f) && cfg.maxBytes > 0
    ensures OpenFiles(cfg, f) == Success(f.(mark := Top(f)))
    ensures FilesInv(cfg, f.(mark := Top(f))) && !Torn(f.(mark := Top(f))) && Top(f.(mark := Top(f))) == Top(f)
  {
    RecordsAreLines(cfg, f);
    if f.lines != [] {
      assert ValidRecord(f.lines[|f.lines| - 1]);
    }
  }

  lemma ReopenKeepsInv(cfg: SpoolConfig, s: SpoolRun)
    requires SpoolInv(cfg, s)
    ensures SpoolInv(cfg, Take(cfg, s, Reopen))
    ensures Top(Take(cfg, s, Reopen).files) == Top(s.files)
    ensures cfg.maxBytes > 0 ==> !Torn(Take(cfg, s, Reopen).files)
  {
    if cfg.maxBytes > 0 {
      OpenedFiles(cfg, s.files);
      hide FilesInv, BoundOnce, Covers, Top, Torn, ReadRecords;
    }
  }

  lemma StepKeepsInv(cfg: SpoolConfig, s: SpoolRun, step: SpoolStep)
    requires SpoolInv(cfg, s)
    requires Allowed(s.files, step)
    ensures SpoolInv(cfg, Take(cfg, s, step))
  {
    match step
    case Append(e) => WriteKeepsInv(cfg, s, e, false);
    case TornAppend(e) => WriteKeepsInv(cfg, s, e, true);
    case Acknowledge(n) => AcknowledgeKeepsFiles(cfg, s.files, n);
    case Reopen => ReopenKeepsInv(cfg, s);
  }

  lemma {:induction false} RunKeepsInv(cfg: SpoolConfig, s: SpoolRun, steps: seq<SpoolStep>)
    requires SpoolInv(cfg, s)
    requires AllowedRun(cfg, s, steps)
    ensures SpoolInv(cfg, Execute(cfg, s, steps))
    decreases |steps|
  {
    if steps != [] {
      StepKeepsInv(cfg, s, steps[0]);
      RunKeepsInv(cfg, Take(cfg, s, steps[0]), steps[1..]);
    }
  }

  /**
   * Every run of appends, torn appends, acknowledgements and reopens from an empty spool,
   * followed by an `open`: the watermark is at or above every sequence ever written and 1..mark
   * were all written; the pending records are one contiguous run ending at the watermark; no
   * sequence below the 64-bit limit was bound to two events, no two pending records share an
   * identifier; and the file is within its quota.
   */
  lemma ReopenedSpoolIsSound(cfg: SpoolConfig, steps: seq<SpoolStep>)
    requires cfg.maxBytes > 0
    requires AllowedRun(cfg, EMPTY_SPOOL, steps)
    ensures var s := Take(cfg, Execute(cfg, EMPTY_SPOOL, steps), Reopen);
      && Covers(s.written, s.files.mark)
      && Contiguous(s.files.lines)
      && (s.files.lines != [] ==> LastSequence(s.files.lines) == s.files.mark)
      && BoundOnce(s.written)
      && DistinctRecordIds(s.files.lines)
      && WithinQuota(cfg, s.files)
      && NextSequence(s.files) == Success(SaturatingAdd(s.files.mark, 1))
  {
    RunKeepsInv(cfg, EMPTY_SPOOL, steps);
    var s := Execute(cfg, EMPTY_SPOOL, steps);
    ReopenKeepsInv(cfg, s);
    hide Execute, Take, NextSequence, Covers, BoundOnce, WithinQuota;
    NextFollowsTop(cfg, Take(cfg, s, Reopen).files);
  }

  /** The sequence handed to the next collector is not one that has already been written. */
  ghost predicate NextIsFresh(s: SpoolRun) {
    && NextSequence(s.files).Success?
    && forall w | w in s.written && SequenceOf(w) < U64_MAX :: SequenceOf(w) < NextSequence(s.files).value
  }

  lemma NextFollowsTop(cfg: SpoolConfig, f: SpoolFiles)
    requires FilesInv(cfg, f)
    ensures NextSequence(f) == Success(SaturatingAdd(Top(f), 1))
  {
    RecordsAreLines(cfg, f);
  }

  lemma TornAcknowledgeLowersTop(cfg: SpoolConfig, f: SpoolFiles, n: nat)
    requires FilesInv(cfg, f)
    requires !Allowed(f, Acknowledge(n))
    ensures Top(AcknowledgeFiles(f, n)) + 1 == Top(f)
  {
    forall v | v in f.lines ensures SequenceOf(v) <= n {
      var i :| 0 <= i < |f.lines| && f.lines[i] == v;
    }
    RecordsAreLines(cfg, f);
    AboveOfNone(f.lines, n);
  }

  /**
   * The exact condition on acknowledgements: the next sequence stays fresh if and only if the
   * acknowledgement leaves a torn record in place.
   */
  lemma AcknowledgeKeepsNextFreshIff(cfg: SpoolConfig, s: SpoolRun, n: nat)
    requires SpoolInv(cfg, s)
    requires Top(s.files) < U64_MAX
    ensures NextIsFresh(Take(cfg, s, Acknowledge(n))) <==> Allowed(s.files, Acknowledge(n))
  {
    hide FilesInv, BoundOnce, Top, Allowed, AcknowledgeFiles, NextSequence, ValidRecord, OpenFiles, Judge;
    AcknowledgeKeepsFiles(cfg, s.files, n);
    NextFollowsTop(cfg, AcknowledgeFiles(s.files, n));
    if !Allowed(s.files, Acknowledge(n)) {
      TornAcknowledgeLowersTop(cfg, s.files, n);
      assert WasWritten(s.written, Top(s.files));
    }
  }

  /** An accepted append rebinds an already written sequence exactly when the watermark is saturated. */
  lemma AppendRebindsIffSaturated(cfg: SpoolConfig, s: SpoolRun, e: Json)
    requires SpoolInv(cfg, s)
    requires Judge(cfg, s.files, e) == Write
    ensures WasWritten(s.written, SequenceOf(e)) <==> s.files.mark == U64_MAX
  {
    WriteFacts(cfg, s.files, e);
    if s.files.mark == U64_MAX {
      assert WasWritten(s.written, U64_MAX);
    }
  }

  lemma {:induction false} ExecuteAppend(cfg: SpoolConfig, s: SpoolRun, a: seq<SpoolStep>, b: seq<SpoolStep>)
    ensures Execute(cfg, s, a + b) == Execute(cfg, Execute(cfg, s, a), b)
    ensures AllowedRun(cfg, s, a + b) <==> AllowedRun(cfg, s, a) && AllowedRun(cfg, Execute(cfg, s, a), b)
    decreases |a|
  {
    hide Take, Allowed;
    if a == [] {
      assert a + b == b;
    } else {
      assert (a + b)[0] == a[0] && (a + b)[1..] == a[1..] + b;
      ExecuteAppend(cfg, Take(cfg, s, a[0]), a[1..], b);
    }
  }

  /** The smallest record with a given identifier and sequence. */
  function Numbered(id: string, n: nat): Json {
    Json(Some(SCHEMA_VERSION), Some(id), Some(n), Untyped(""))
  }

  /** Onto an empty file, a record that carries the saturated next sequence is written. */
  lemma EmptyFileAccepts(cfg: SpoolConfig, s: SpoolRun, id: string, n: nat)
    requires s.files.lines == [] && n == SaturatingAdd(s.files.mark, 1) && 1 <= n <= U64_MAX
    requires SaturatingAdd(0, cfg.lineBytes(Numbered(id, n))) <= cfg.maxBytes
    ensures Take(cfg, s, Append(Numbered(id, n))) == SpoolRun(SpoolFiles([Numbered(id, n)], n), s.written + [Numbered(id, n)])
  {
    assert Judge(cfg, s.files, Numbered(id, n)) == Write;
  }

  lemma OnlyRecordIsRemoved(cfg: SpoolConfig, s: SpoolRun, id: string, n: nat)
    requires s.files == SpoolFiles([Numbered(id, n)], n) && 1 <= n <= U64_MAX
    ensures Allowed(s.files, Acknowledge(n))
    ensures Take(cfg, s, Acknowledge(n)) == SpoolRun(SpoolFiles([], n), s.written)
  {
    assert ReadRecords(s.files) == Success([Numbered(id, n)]) by {
      SortedFileIsItsOwnRecordList([Numbered(id, n)]);
    }
    AboveOfNone([Numbered(id, n)], n);
  }

  lemma AppendAndRemove(cfg: SpoolConfig, s: SpoolRun, id: string, n: nat)
    requires s.files.lines == [] && n == SaturatingAdd(s.files.mark, 1) && 1 <= n <= U64_MAX
    requires SaturatingAdd(0, cfg.lineBytes(Numbered(id, n))) <= cfg.maxBytes
    ensures var steps := [Append(Numbered(id, n)), Acknowledge(n)];
      && AllowedRun(cfg, s, steps)
      && Execute(cfg, s, steps) == SpoolRun(SpoolFiles([], n), s.written + [Numbered(id, n)])
  {
    EmptyFileAccepts(cfg, s, id, n);
    var s1 := Take(cfg, s, Append(Numbered(id, n)));
    OnlyRecordIsRemoved(cfg, s1, id, n);
    var s2 := Take(cfg, s1, Acknowledge(n));
    var steps := [Append(Numbered(id, n)), Acknowledge(n)];
    assert steps[1..] == [Acknowledge(n)] && [Acknowledge(n)][1..] == [];
    hide Take;
    assert Execute(cfg, s1, [Acknowledge(n)]) == Execute(cfg, s2, []) == s2;
    assert AllowedRun(cfg, s2, []) && AllowedRun(cfg, s1, [Acknowledge(n)]);
  }

  /** Appends and acknowledgements, one at a time, move the watermark to any value. */
  lemma {:induction false} CountTo(cfg: SpoolConfig, id: string, n: nat) returns (steps: seq<SpoolStep>)
    requires n <= U64_MAX && forall k: nat :: SaturatingAdd(0, cfg.lineBytes(Numbered(id, k))) <= cfg.maxBytes
    ensures AllowedRun(cfg, EMPTY_SPOOL, steps) && Execute(cfg, EMPTY_SPOOL, steps).files == SpoolFiles([], n)
    ensures n > 0 ==> Numbered(id, n) in Execute(cfg, EMPTY_SPOOL, steps).written
  {
    steps := [];
    if n > 0 {
      var before := CountTo(cfg, id, n - 1);
      var turn := [Append(Numbered(id, n)), Acknowledge(n)];
      AppendAndRemove(cfg, Execute(cfg, EMPTY_SPOOL, before), id, n);
      ExecuteAppend(cfg, EMPTY_SPOOL, before, turn);
      hide Execute, AllowedRun;
      steps := before + turn;
    }
  }

  /**
   * A run, without any fault, that reaches the 64-bit limit and then binds its last sequence to a second
   * event: the saturated watermark keeps handing out the same number.
   */
  lemma SaturatedWatermarkRebinds(cfg: SpoolConfig, a: string, b: string) returns (steps: seq<SpoolStep>)
    requires a != b
    requires forall k: nat :: SaturatingAdd(0, cfg.lineBytes(Numbered(a, k))) <= cfg.maxBytes
    requires SaturatingAdd(0, cfg.lineBytes(Numbered(b, U64_MAX))) <= cfg.maxBytes
    ensures AllowedRun(cfg, EMPTY_SPOOL, steps)
    ensures var s := Execute(cfg, EMPTY_SPOOL, steps);
      Numbered(a, U64_MAX) in s.written && Numbered(b, U64_MAX) in s.written && Numbered(a, U64_MAX) != Numbered(b, U64_MAX)
  {
    var before := CountTo(cfg, a, U64_MAX);
    var turn := [Append(Numbered(b, U64_MAX)), Acknowledge(U64_MAX)];
    AppendAndRemove(cfg, Execute(cfg, EMPTY_SPOOL, before), b, U64_MAX);
    ExecuteAppend(cfg, EMPTY_SPOOL, before, turn);
    hide Execute, AllowedRun;
    steps := before + turn;
  }

  /** Without a reopen, acknowledging a torn record lets a second event take its sequence. */
  lemma TornAcknowledgeRebinds(a: Json, b: Json, cfg: SpoolConfig)
    requires ValidRecord(a) && ValidRecord(b) && a != b
    requires SequenceOf(a) == SequenceOf(b) == 1
    requires cfg.maxBytes >= cfg.lineBytes(a) + cfg.lineBytes(b)
    ensures var s := Execute(cfg, EMPTY_SPOOL, [TornAppend(a), Acknowledge(1), Append(b)]);
      a in s.written && b in s.written && !BoundOnce(s.written)
  {
    var s1 := Take(cfg, EMPTY_SPOOL, TornAppend(a));
    assert Judge(cfg, EMPTY_SPOOL.files, a) == Write;
    assert s1.files.lines == [a] && s1.files.mark == 0 && s1.written == [a];
    var s2 := Take(cfg, s1, Acknowledge(1));
    assert ReadRecords(s1.files) == Success([a]) by { SortedFileIsItsOwnRecordList([a]); }
    AboveOfNone([a], 1);
    assert s2.files == SpoolFiles([], 0);
    var s3 := Take(cfg, s2, Append(b));
    assert Judge(cfg, s2.files, b) == Write;
    assert s3.written == [a, b];
    var steps := [TornAppend(a), Acknowledge(1), Append(b)];
    assert steps[1..] == [Acknowledge(1), Append(b)] && [Acknowledge(1), Append(b)][1..] == [Append(b)];
    assert Execute(cfg, s2, [Append(b)]) == Execute(cfg, s3, []) == s3;
    assert Execute(cfg, s1, [Acknowledge(1), Append(b)]) == s3;
  }

  // ---------- what an append, an open and a read answer, from the file alone ----------

  /** A record the spool takes: schema, a positive 64-bit sequence and an identifier. */
  ghost predicate WellFormed(v: Json) {
    && v.schemaVersion == Some("activity.event/v1")
    && v.collectorSequence.Some? && 1 <= v.collectorSequence.value <= 0xFFFF_FFFF_FFFF_FFFF
    && v.eventId.Some?
  }

  lemma ValidRecordIff(v: Json)
    ensures ValidRecord(v) <==> WellFormed(v)
    ensures WellFormed(v) ==> SequenceOf(v) == v.collectorSequence.value
  {
  }

  /** Another pending record already holds the event's sequence or its identifier. */
  ghost predicate TakenByAnother(lines: seq<Json>, e: Json) {
    exists x | x in lines :: x != e && (x.collectorSequence == e.collectorSequence || x.eventId == e.eventId)
  }

  /** The event is the next record and there is room for its line. */
  ghost predicate IsNextAndFits(cfg: SpoolConfig, f: SpoolFiles, e: Json) {
    && e.collectorSequence == Some(if f.mark < 0xFFFF_FFFF_FFFF_FFFF then f.mark + 1 else f.mark)
    && Fits(cfg, f, e)
  }

  ghost predicate Fits(cfg: SpoolConfig, f: SpoolFiles, e: Json) {
    FileBytes(cfg, f.lines) + cfg.lineBytes(e) <= cfg.maxBytes || 0xFFFF_FFFF_FFFF_FFFF <= cfg.maxBytes
  }

  /** In a file of the invariant, the only record that clashes with a pending one is that record. */
  lemma PendingClashesWithItself(cfg: SpoolConfig, f: SpoolFiles, e: Json, x: Json)
    requires FilesInv(cfg, f) && e in f.lines && x in f.lines && Clashes(x, e)
    ensures x == e
  {
    var i :| 0 <= i < |f.lines| && f.lines[i] == x;
    var j :| 0 <= j < |f.lines| && f.lines[j] == e;
    assert SequenceOf(f.lines[i]) == SequenceOf(f.lines[0]) + i && SequenceOf(f.lines[j]) == SequenceOf(f.lines[0]) + j;
  }

  /** How the clash scan ends: on the event itself, on another record, or on none. */
  lemma ClashScan(cfg: SpoolConfig, f: SpoolFiles, e: Json)
    requires FilesInv(cfg, f) && WellFormed(e)
    ensures e in f.lines ==> FirstClash(f.lines, e) == Some(e) && !TakenByAnother(f.lines, e)
    ensures e !in f.lines ==> (FirstClash(f.lines, e).Some? <==> TakenByAnother(f.lines, e))
    ensures e !in f.lines && FirstClash(f.lines, e).Some? ==> FirstClash(f.lines, e).value != e
  {
    ValidRecordIff(e);
    forall x | x in f.lines ensures Clashes(x, e) <==> x.collectorSequence == e.collectorSequence || x.eventId == e.eventId {
      ValidRecordIff(x);
    }
    if e in f.lines {
      forall x | x in f.lines && Clashes(x, e) ensures x == e {
        PendingClashesWithItself(cfg, f, e, x);
      }
      assert Clashes(e, e);
    }
  }

  /**
   * The reply of an append whose writes work: Success if and only if the event is already pending, or it
   * is well formed, nobody holds its sequence or identifier, it is the next one and it fits; Full if and
   * only if room is all that is missing, with the sizes; Invalid in every other case.
   */
  lemma AppendReplies(cfg: SpoolConfig, f: SpoolFiles, e: Json)
    requires FilesInv(cfg, f)
    ensures var r := AppendOutcome(cfg, f, e, false);
      var free := WellFormed(e) && e !in f.lines && !TakenByAnother(f.lines, e);
      && (r == Success(()) <==> e in f.lines || (free && IsNextAndFits(cfg, f, e)))
      && (r == Failure(Full(FileBytes(cfg, f.lines), cfg.lineBytes(e), cfg.maxBytes)) <==>
            free && !Fits(cfg, f, e) &&
            e.collectorSequence == Some(if f.mark < 0xFFFF_FFFF_FFFF_FFFF then f.mark + 1 else f.mark))
      && (r.Success? || r == Failure(Invalid) || r == Failure(Full(FileBytes(cfg, f.lines), cfg.lineBytes(e), cfg.maxBytes)))
  {
    RecordsAreLines(cfg, f);
    ValidRecordIff(e);
    if WellFormed(e) {
      ClashScan(cfg, f, e);
    }
    hide FirstClash, Clashes, Contiguous, DistinctRecordIds, TakenByAnother, FileBytes, SortBySequence;
  }

  /** What an append does: after Success the event is pending; a refusal leaves both files alone. */
  lemma AppendEffect(cfg: SpoolConfig, f: SpoolFiles, e: Json)
    requires FilesInv(cfg, f)
    ensures var r, after := AppendOutcome(cfg, f, e, false), AppendFiles(cfg, f, e, false);
      && (r.Success? ==> e in after.lines)
      && (r.Success? && e !in f.lines ==> after.lines == f.lines + [e] && Some(after.mark) == e.collectorSequence)
      && (r.Failure? || e in f.lines ==> after == f)
      && (TakenByAnother(f.lines, e) ==> r == Failure(Invalid))
  {
    AppendReplies(cfg, f, e);
    RecordsAreLines(cfg, f);
    ValidRecordIff(e);
    assert e in f.lines ==> ValidRecord(e);
    if WellFormed(e) {
      ClashScan(cfg, f, e);
    }
    hide FirstClash, Clashes, Contiguous, DistinctRecordIds, TakenByAnother, FileBytes, SortBySequence, Fits;
  }

  /** The records with one key, in order. */
  function WithKey(s: seq<Json>, n: nat): seq<Json> {
    if s == [] then [] else (if SequenceOf(s[0]) == n then [s[0]] else []) + WithKey(s[1..], n)
  }

  lemma WithKeyCons(x: Json, s: seq<Json>, n: nat)
    ensures WithKey([x] + s, n) == (if SequenceOf(x) == n then [x] else []) + WithKey(s, n)
  {
    assert ([x] + s)[1..] == s;
  }

  lemma {:induction false} InsertKeepsKeys(x: Json, s: seq<Json>, n: nat)
    ensures WithKey(InsertBySequence(x, s), n) == WithKey([x] + s, n)
  {
    if s != [] && SequenceOf(x) > SequenceOf(s[0]) {
      var rest := s[1..];
      InsertKeepsKeys(x, rest, n);
      assert s == [s[0]] + rest && InsertBySequence(x, s) == [s[0]] + InsertBySequence(x, rest);
      hide SequenceOf, WithKey, InsertBySequence;
      WithKeyCons(s[0], InsertBySequence(x, rest), n);
      WithKeyCons(x, s, n);
      WithKeyCons(x, rest, n);
      WithKeyCons(s[0], rest, n);
    }
  }

  lemma {:induction false} InsertKeepsRecords(x: Json, s: seq<Json>)
    ensures multiset(InsertBySequence(x, s)) == multiset{x} + multiset(s)
  {
    if s != [] && SequenceOf(x) > SequenceOf(s[0]) {
      InsertKeepsRecords(x, s[1..]);
      assert s == [s[0]] + s[1..];
    }
  }

  lemma ConsAscending(x: Json, s: seq<Json>)
    requires Ascending(s) && forall v | v in s :: SequenceOf(x) <= SequenceOf(v)
    ensures Ascending([x] + s)
  {
    assert forall i | 0 <= i < |s| :: s[i] in s;
  }

  lemma TailAscending(s: seq<Json>)
    requires Ascending(s) && s != []
    ensures Ascending(s[1..]) && forall v | v in s :: SequenceOf(s[0]) <= SequenceOf(v)
  {
    assert forall i | 0 <= i < |s[1..]| :: s[1..][i] == s[i + 1];
  }

  lemma {:induction false} InsertKeepsAscending(x: Json, s: seq<Json>)
    requires Ascending(s)
    ensures Ascending(InsertBySequence(x, s))
  {
    assert Ascending([x]);
    hide Ascending, SequenceOf;
    if s != [] {
      TailAscending(s);
      if SequenceOf(x) <= SequenceOf(s[0]) {
        ConsAscending(x, s);
      } else {
        InsertKeepsAscending(x, s[1..]);
        InsertKeepsRecords(x, s[1..]);
        var t := InsertBySequence(x, s[1..]);
        forall v | v in t ensures SequenceOf(s[0]) <= SequenceOf(v) {
          assert v in multiset{x} + multiset(s[1..]);
        }
        ConsAscending(s[0], t);
      }
    }
  }

  /** What reading a file returns, in whatever order its lines are: a stable sort by sequence. */
  lemma {:induction false} SortIsStable(s: seq<Json>, n: nat)
    ensures Ascending(SortBySequence(s)) && multiset(SortBySequence(s)) == multiset(s)
    ensures WithKey(SortBySequence(s), n) == WithKey(s, n)
  {
    if s != [] {
      SortIsStable(s[1..], n);
      var rest := SortBySequence(s[1..]);
      InsertKeepsAscending(s[0], rest);
      InsertKeepsRecords(s[0], rest);
      InsertKeepsKeys(s[0], rest, n);
      assert s == [s[0]] + s[1..];
      hide SequenceOf, Ascending;
      WithKeyCons(s[0], rest, n);
      WithKeyCons(s[0], s[1..], n);
    }
  }

  /**
   * Opening any two files: it works if and only if the quota is positive and every record is well formed;
   * it keeps the records, and the watermark becomes the largest of the old one and the records' sequences.
   */
  lemma OpenRepairs(cfg: SpoolConfig, f: SpoolFiles)
    ensures OpenFiles(cfg, f).Success? <==> cfg.maxBytes > 0 && forall v | v in f.lines :: WellFormed(v)
    ensures OpenFiles(cfg, f).Failure? ==> OpenFiles(cfg, f).error == Invalid
    ensures OpenFiles(cfg, f).Success? ==>
      var g := OpenFiles(cfg, f).value;
      && g.lines == f.lines && f.mark <= g.mark
      && (forall v | v in f.lines :: v.collectorSequence.value <= g.mark)
      && (g.mark == f.mark || exists v | v in f.lines :: v.collectorSequence == Some(g.mark))
  {
    forall v | v in f.lines ensures ValidRecord(v) <==> WellFormed(v) {
      ValidRecordIff(v);
    }
    hide ValidRecord, WellFormed, SortBySequence, LastSequence;
    if OpenFiles(cfg, f).Success? {
      LastIsLargest(f.lines);
    }
  }

  /** The last record of the sorted file carries the largest sequence. */
  lemma LastIsLargest(lines: seq<Json>)
    requires forall v | v in lines :: WellFormed(v)
    ensures var last := LastSequence(SortBySequence(lines));
      && (forall v | v in lines :: v.collectorSequence.Some? && v.collectorSequence.value <= last)
      && (lines == [] ==> last == 0)
      && (lines != [] ==> exists v | v in lines :: v.collectorSequence == Some(last))
  {
    var records := SortBySequence(lines);
    SortIsStable(lines, 0);
    assert |records| == |multiset(records)| == |multiset(lines)| == |lines|;
    hide SortBySequence, SequenceOf, WellFormed;
    forall v | v in lines ensures v.collectorSequence.Some? && v.collectorSequence.value <= LastSequence(records) {
      WellFormedHasSequence(v);
      assert v in multiset(records);
      var i :| 0 <= i < |records| && records[i] == v;
    }
    if lines != [] {
      var w := records[|records| - 1];
      assert w in multiset(lines);
      ValidRecordIff(w);
      WellFormedHasSequence(w);
      assert w in lines && w.collectorSequence == Some(LastSequence(records));
    }
  }

  lemma WellFormedHasSequence(v: Json)
    requires WellFormed(v)
    ensures v.collectorSequence == Some(SequenceOf(v))
  {
  }

  // ---------- the spool object ----------

  /** The directory entry both processes of a restart see. */
  class SpoolDisk {
    var lines: seq<Json>
    var mark: nat

    constructor ()
      ensures Files() == SpoolFiles([], 0)
    {
      lines, mark := [], 0;
    }

    ghost function Files(): SpoolFiles reads this {
      SpoolFiles(lines, mark)
    }
  }

  class ActivitySpool {
    const disk: SpoolDisk
    const cfg: SpoolConfig

    constructor (disk: SpoolDisk, cfg: SpoolConfig)
      ensures this.disk == disk && this.cfg == cfg
    {
      this.disk, this.cfg := disk, cfg;
    }

    static method Open(disk: SpoolDisk, cfg: SpoolConfig) returns (r: Result<ActivitySpool, SpoolError>)
      modifies disk
      ensures r.Success? <==> OpenFiles(cfg, old(disk.Files())).Success?
      ensures r.Success? ==> disk.Files() == OpenFiles(cfg, old(disk.Files())).value
      ensures r.Success? ==> r.value.disk == disk && r.value.cfg == cfg && fresh(r.value)
      ensures r.Failure? ==> disk.Files() == old(disk.Files()) && OpenFiles(cfg, old(disk.Files())) == Failure(r.error)
    {
      if cfg.maxBytes == 0 {
        return Failure(Invalid);
      }
      var spool := new ActivitySpool(disk, cfg);
      var records := spool.Records();
      match records {
        case Failure(error) => return Failure(error);
        case Success(rs) =>
          var last := LastSequence(rs);
          if last > disk.mark {
            spool.PersistHighWatermark(last);
          }
          return Success(spool);
      }
    }

    method Records() returns (r: Result<seq<Json>, SpoolError>)
      ensures r == ReadRecords(disk.Files())
    {
      var i := 0;
      while i < |disk.lines|
        invariant 0 <= i <= |disk.lines|
        invariant forall v | v in disk.lines[..i] :: ValidRecord(v)
      {
        if !ValidRecord(disk.lines[i]) {
          assert disk.lines[i] in disk.lines;
          return Failure(Invalid);
        }
        i := i + 1;
      }
      assert disk.lines[..i] == disk.lines;
      return Success(SortBySequence(disk.lines));
    }

    method NextSequenceNumber() returns (r: Result<nat, SpoolError>)
      ensures r == NextSequence(disk.Files())
    {
      var records := Records();
      match records {
        case Failure(error) => r := Failure(error);
        case Success(rs) =>
          var last := LastSequence(rs);
          r := Success(SaturatingAdd(if last > disk.mark then last else disk.mark, 1));
      }
    }

    /** `fault` models a watermark write that fails once the record is on disk. */
    method AppendRecord(event: Json, fault: bool) returns (r: Result<(), SpoolError>)
      modifies disk
      ensures disk.Files() == AppendFiles(cfg, old(disk.Files()), event, fault)
      ensures r == AppendOutcome(cfg, old(disk.Files()), event, fault)
    {
      if !ValidRecord(event) {
        return Failure(Invalid);
      }
      var read := Records();
      if read.Failure? {
        return Failure(read.error);
      }
      var records := read.value;
      var i := 0;
      while i < |records|
        invariant 0 <= i <= |records|
        invariant FirstClash(records, event) == FirstClash(records[i..], event)
      {
        if Clashes(records[i], event) {
          if records[i] == event {
            return Success(());
          }
          return Failure(Invalid);
        }
        assert records[i..][1..] == records[i + 1..];
        i := i + 1;
      }
      assert FirstClash(records, event) == None;
      if SequenceOf(event) != SaturatingAdd(disk.mark, 1) {
        return Failure(Invalid);
      }
      var used, incoming := FileBytes(cfg, disk.lines), cfg.lineBytes(event);
      if SaturatingAdd(used, incoming) > cfg.maxBytes {
        return Failure(Full(used, incoming, cfg.maxBytes));
      }
      disk.lines := disk.lines + [event];
      if fault {
        return Failure(Io);
      }
      PersistHighWatermark(SequenceOf(event));
      r := Success(());
    }

    method Pending(limit: nat) returns (r: Result<seq<Json>, SpoolError>)
      ensures r == PendingRecords(disk.Files(), limit)
    {
      var records := Records();
      match records {
        case Failure(error) => r := Failure(error);
        case Success(rs) =>
          var n := if limit < 1000 then limit else 1000;
          r := Success(if n < |rs| then rs[..n] else rs);
      }
    }

    /** Rewrites the record file with what is above the acknowledged sequence, then renames it into place. */
    method AcknowledgeThrough(n: nat) returns (r: Result<(), SpoolError>)
      modifies disk
      ensures disk.Files() == AcknowledgeFiles(old(disk.Files()), n)
      ensures r.Success? <==> ReadRecords(old(disk.Files())).Success?
    {
      var read := Records();
      if read.Failure? {
        return Failure(read.error);
      }
      var records, temporary, i := read.value, [], 0;
      while i < |records|
        invariant 0 <= i <= |records|
        invariant Above(records, n) == temporary + Above(records[i..], n)
      {
        assert records[i..][1..] == records[i + 1..];
        if SequenceOf(records[i]) > n {
          temporary := temporary + [records[i]];
        }
        i := i + 1;
      }
      disk.lines := temporary;
      r := Success(());
    }

    method PersistHighWatermark(n: nat)
      modifies disk`mark
      ensures disk.mark == n
    {
      disk.mark := n;
    }
  }
}
