// What a call reports and notes: the errors in row order, the warnings and the counts, told by the rows
// of the file that the loop looked at.
module CallReport {
  import opened Wrappers
  import opened Records
  import opened SqliteCache
  import opened RegistrySync
  import opened RowOutcomes
  import opened CallOutcomes

  // ----- the rows of a file -----

  // An earlier row of the call has the same content.
  predicate Repeats(slots: seq<Slot>, start: nat, i: nat)
    requires i < |slots| && slots[i].Good?
  {
    exists j :: start <= j < i && slots[j].Good? && slots[j].fingerprint == slots[i].fingerprint
  }

  // The error that row i + 1 gives rise to, if any. Malformed rows are reported even before the resume row.
  predicate IsReported(slots: seq<Slot>, start: nat, i: nat, e: SyncError)
    requires i < |slots|
  {
    match slots[i]
    case Malformed => e == RowParseFailed(i + 1)
    case Unmappable => i >= start && e == RowParseFailed(i + 1)
    case Good(_, _, outcome) =>
      i >= start && outcome.None? && !Repeats(slots, start, i) && e == NormalizationFailed(i + 1)
    case _ => false
  }

  predicate HasReport(slots: seq<Slot>, start: nat, i: nat)
    requires i < |slots|
  {
    IsReported(slots, start, i, RowParseFailed(i + 1)) || IsReported(slots, start, i, NormalizationFailed(i + 1))
  }

  function RowOfError(e: SyncError): nat {
    match e
    case RowParseFailed(row) => row
    case NormalizationFailed(row) => row
    case SyncFailed => 0
  }

  // Exactly the errors of the first v rows, in row order.
  ghost predicate ReportsRows(slots: seq<Slot>, start: nat, v: nat, errors: seq<SyncError>)
    requires v <= |slots|
  {
    && (forall e :: e in errors <==> exists i: nat :: i < v && IsReported(slots, start, i, e))
    && (forall a, b :: 0 <= a < b < |errors| ==> RowOfError(errors[a]) < RowOfError(errors[b]))
  }

  function ReportedRows(slots: seq<Slot>, start: nat, v: nat): set<nat>
    requires v <= |slots|
  {
    set i: nat | i < v && HasReport(slots, start, i)
  }

  function RowsTaken(slots: seq<Slot>, start: nat, v: nat): set<nat>
    requires v <= |slots|
  {
    set i: nat | start <= i < v && slots[i].Good?
  }

  function RowsRepeating(slots: seq<Slot>, start: nat, v: nat): set<nat>
    requires v <= |slots|
  {
    set i: nat | start <= i < v && slots[i].Good? && Repeats(slots, start, i)
  }

  predicate Normalizes(slots: seq<Slot>, start: nat, i: nat)
    requires i < |slots|
  {
    slots[i].Good? && slots[i].outcome.Some? && !Repeats(slots, start, i)
  }

  function RowsNormalized(slots: seq<Slot>, start: nat, v: nat): set<nat>
    requires v <= |slots|
  {
    set i: nat | start <= i < v && Normalizes(slots, start, i)
  }

  // The warnings that the rows bring themselves.
  function OwnWarnings(slots: seq<Slot>, start: nat, v: nat): nat
    requires v <= |slots|
  {
    if v <= start then 0
    else OwnWarnings(slots, start, v - 1) + if slots[v - 1].Good? then slots[v - 1].warningCount else 0
  }

  datatype Figures = Figures(raw: nat, normalized: nat, duplicates: nat, warnings: nat, reports: nat)

  // Every repetition is a warning too.
  function FiguresOf(slots: seq<Slot>, start: nat, v: nat): Figures
    requires v <= |slots|
  {
    Figures(|RowsTaken(slots, start, v)|, |RowsNormalized(slots, start, v)|, |RowsRepeating(slots, start, v)|,
            OwnWarnings(slots, start, v) + |RowsRepeating(slots, start, v)|, |ReportedRows(slots, start, v)|)
  }

  lemma {:induction false} SeenHas(slots: seq<Slot>, start: nat, n: nat, j: nat)
    requires start <= j < n <= |slots| && slots[j].Good?
    ensures slots[j].fingerprint in SeenBy(slots, start, n)
  {
    if j < n - 1 {
      SeenHas(slots, start, n - 1, j);
    }
  }

  lemma RepeatsIsSeen(slots: seq<Slot>, start: nat, i: nat)
    requires i < |slots| && slots[i].Good?
    ensures Repeats(slots, start, i) <==> slots[i].fingerprint in SeenBy(slots, start, i)
  {
    if Repeats(slots, start, i) {
      var j :| start <= j < i && slots[j].Good? && slots[j].fingerprint == slots[i].fingerprint;
      SeenHas(slots, start, i, j);
    }
    if slots[i].fingerprint in SeenBy(slots, start, i) {
      var j := SeenIsEarlier(slots, start, i, slots[i].fingerprint);
    }
  }

  // One more row.
  function RowFigures(slots: seq<Slot>, start: nat, i: nat): Figures
    requires i < |slots|
  {
    var reports := if HasReport(slots, start, i) then 1 else 0;
    if i < start || !slots[i].Good? then Figures(0, 0, 0, 0, reports)
    else if Repeats(slots, start, i) then Figures(1, 0, 1, slots[i].warningCount + 1, reports)
    else Figures(1, if slots[i].outcome.Some? then 1 else 0, 0, slots[i].warningCount, reports)
  }

  function Sum(a: Figures, b: Figures): Figures {
    Figures(a.raw + b.raw, a.normalized + b.normalized, a.duplicates + b.duplicates, a.warnings + b.warnings,
            a.reports + b.reports)
  }

  lemma TakenGrow(slots: seq<Slot>, start: nat, i: nat)
    requires i < |slots|
    ensures |RowsTaken(slots, start, i + 1)|
            == |RowsTaken(slots, start, i)| + if i >= start && slots[i].Good? then 1 else 0
  {
    assert RowsTaken(slots, start, i + 1)
           == RowsTaken(slots, start, i) + if i >= start && slots[i].Good? then {i} else {};
  }

  lemma RepeatingGrow(slots: seq<Slot>, start: nat, i: nat)
    requires i < |slots|
    ensures var repeats := i >= start && slots[i].Good? && Repeats(slots, start, i);
            |RowsRepeating(slots, start, i + 1)| == |RowsRepeating(slots, start, i)| + if repeats then 1 else 0
  {
    var repeats := i >= start && slots[i].Good? && Repeats(slots, start, i);
    assert RowsRepeating(slots, start, i + 1) == RowsRepeating(slots, start, i) + if repeats then {i} else {};
  }

  lemma NormalizedGrow(slots: seq<Slot>, start: nat, i: nat)
    requires i < |slots|
    ensures |RowsNormalized(slots, start, i + 1)|
            == |RowsNormalized(slots, start, i)| + if i >= start && Normalizes(slots, start, i) then 1 else 0
  {
    assert RowsNormalized(slots, start, i + 1)
           == RowsNormalized(slots, start, i) + if i >= start && Normalizes(slots, start, i) then {i} else {};
  }

  lemma ReportedGrow(slots: seq<Slot>, start: nat, i: nat)
    requires i < |slots|
    ensures |ReportedRows(slots, start, i + 1)|
            == |ReportedRows(slots, start, i)| + if HasReport(slots, start, i) then 1 else 0
  {
    assert ReportedRows(slots, start, i + 1)
           == ReportedRows(slots, start, i) + if HasReport(slots, start, i) then {i} else {};
  }

  lemma FiguresGrow(slots: seq<Slot>, start: nat, i: nat)
    requires i < |slots|
    ensures FiguresOf(slots, start, i + 1) == Sum(FiguresOf(slots, start, i), RowFigures(slots, start, i))
  {
    TakenGrow(slots, start, i);
    RepeatingGrow(slots, start, i);
    NormalizedGrow(slots, start, i);
    ReportedGrow(slots, start, i);
    if i < start {
      assert RowsTaken(slots, start, i) == RowsRepeating(slots, start, i) == RowsNormalized(slots, start, i) == {};
    }
  }

  lemma ReportsGrow(slots: seq<Slot>, start: nat, i: nat, errors: seq<SyncError>, more: seq<SyncError>)
    requires i < |slots| && ReportsRows(slots, start, i, errors)
    requires if HasReport(slots, start, i) then |more| == 1 && IsReported(slots, start, i, more[0]) else more == []
    ensures ReportsRows(slots, start, i + 1, errors + more)
  {
    var all := errors + more;
    forall e ensures e in all <==> exists j: nat :: j < i + 1 && IsReported(slots, start, j, e) {
      if e in errors {
        var j: nat :| j < i && IsReported(slots, start, j, e);
        assert j < i + 1;
      }
      if e in more {
        assert IsReported(slots, start, i, e);
      }
      if j: nat :| j < i + 1 && IsReported(slots, start, j, e) {
        assert j == i ==> e == more[0];
      }
    }
    forall a, b | 0 <= a < b < |all| ensures RowOfError(all[a]) < RowOfError(all[b]) {
      assert all[a] == errors[a] && errors[a] in errors;
      var j: nat :| j < i && IsReported(slots, start, j, all[a]);
    }
  }

  // ----- the loop -----

  // The figures of these rows, on top of what the run had before.
  function Counts(prior: Stats, f: Figures): Stats {
    Stats(prior.rawCount + f.raw, prior.normalizedCount + f.normalized, prior.duplicateCount + f.duplicates,
          prior.warningCount, prior.errorCount)
  }

  // The local variables after v rows.
  ghost predicate Reported(slots: seq<Slot>, start: nat, prior: Stats, v: nat, s: LoopState) {
    && v <= |slots|
    && ReportsRows(slots, start, v, s.errors)
    && var f := FiguresOf(slots, start, v);
       |s.errors| == f.reports && s.warnings == f.warnings && s.stats == Counts(prior, f)
  }

  // What one row adds to the variables.
  ghost predicate Adds(slots: seq<Slot>, start: nat, i: nat, s: LoopState, s': LoopState, more: seq<SyncError>)
    requires i < |slots|
  {
    var f := RowFigures(slots, start, i);
    && s'.errors == s.errors + more && s'.warnings == s.warnings + f.warnings && s'.stats == Counts(s.stats, f)
    && if HasReport(slots, start, i) then |more| == 1 && IsReported(slots, start, i, more[0]) else more == []
  }

  lemma AddedIsReported(
    slots: seq<Slot>, start: nat, prior: Stats, i: nat, s: LoopState, s': LoopState, more: seq<SyncError>)
    requires i < |slots| && Reported(slots, start, prior, i, s) && Adds(slots, start, i, s, s', more)
    ensures Reported(slots, start, prior, i + 1, s')
  {
    FiguresGrow(slots, start, i);
    ReportsGrow(slots, start, i, s.errors, more);
  }

  lemma TakenRowAdds(o: Options, slots: seq<Slot>, start: nat, i: nat, s: LoopState) returns (more: seq<SyncError>)
    requires start <= i < |slots| && slots[i].Good? && Ready(s) && s.seen == SeenBy(slots, start, i)
    ensures Adds(slots, start, i, s, Consume(o, i + 1, slots[i], s).s, more)
  {
    RepeatsIsSeen(slots, start, i);
    more := [];
    if slots[i].fingerprint !in s.seen {
      if slots[i].outcome.Some? {
        StoreCounts(o, i + 1, slots[i].outcome.value, Remembered(i + 1, slots[i], s));
      } else {
        more := [NormalizationFailed(i + 1)];
      }
    }
    assert s.errors + [] == s.errors;
  }

  // How many rows the loop has looked at when the row at pos is behind it or throws.
  function SeenAt(o: Options, slots: seq<Slot>, pos: nat): nat
    requires pos < |slots|
  {
    if o.stop == Stop(pos + 1, BeforeRow) || slots[pos].Refused? then pos else pos + 1
  }

  lemma RowReports(o: Options, slots: seq<Slot>, start: nat, prior: Stats, pos: nat, s: LoopState)
    requires pos < |slots| && start <= |slots| && Reported(slots, start, prior, pos, s)
    requires Ready(s) && s.seen == SeenBy(slots, start, Max(pos, start))
    ensures Reported(slots, start, prior, SeenAt(o, slots, pos), RowStep(o, pos + 1, slots[pos], start, s).s)
  {
    if o.stop != Stop(pos + 1, BeforeRow) && !slots[pos].Refused? {
      var r := RowStep(o, pos + 1, slots[pos], start, s);
      var more := if slots[pos].Malformed? || (slots[pos].Unmappable? && pos >= start) then [RowParseFailed(pos + 1)]
                  else [];
      if slots[pos].Good? && pos >= start {
        more := TakenRowAdds(o, slots, start, pos, s);
      }
      assert s.errors + [] == s.errors;
      assert Adds(slots, start, pos, s, r.s, more);
      AddedIsReported(slots, start, prior, pos, s, r.s, more);
    }
  }

  // How many rows the loop looks at, from pos on.
  function RowsSeenFrom(o: Options, slots: seq<Slot>, start: nat, hasFile: bool, pos: nat): (v: nat)
    requires pos <= |slots|
    ensures v <= |slots|
  {
    var n := FirstThrow(o, slots, start, hasFile, pos);
    if n == |slots| then n else SeenAt(o, slots, n)
  }

  lemma ThrowingRowReports(
    o: Options, slots: seq<Slot>, start: nat, hasFile: bool, prior: Stats, n: nat, s: LoopState)
    requires n < |slots| && start <= |slots| && Tracks(o, slots, Max(n, start), start, hasFile, s)
    requires Reported(slots, start, prior, n, s) && RowThrows(o, slots, n, start, hasFile)
    ensures Reported(slots, start, prior, SeenAt(o, slots, n), Loop(o, slots, n, start, s).s)
  {
    RowThrowsExactly(o, slots, n, start, hasFile, s);
    RowReports(o, slots, start, prior, n, s);
    LoopEnds(o, slots, start, n, s);
  }

  lemma {:induction false} LoopReports(
    o: Options, slots: seq<Slot>, start: nat, hasFile: bool, prior: Stats, pos: nat, s: LoopState)
    requires pos <= |slots| && start <= |slots| && Tracks(o, slots, Max(pos, start), start, hasFile, s)
    requires Reported(slots, start, prior, pos, s)
    ensures Reported(slots, start, prior, RowsSeenFrom(o, slots, start, hasFile, pos), Loop(o, slots, pos, start, s).s)
    decreases |slots| - pos
  {
    if pos < |slots| {
      if RowThrows(o, slots, pos, start, hasFile) {
        ThrowingRowReports(o, slots, start, hasFile, prior, pos, s);
      } else {
        RowThrowsExactly(o, slots, pos, start, hasFile, s);
        RowReports(o, slots, start, prior, pos, s);
        LoopSteps(o, slots, pos, start, s);
        var next := RowStep(o, pos + 1, slots[pos], start, s).s;
        LoopReports(o, slots, start, hasFile, prior, pos + 1, next);
      }
    }
  }

  // ----- the run's row and the saved file -----

  // The run's row after v rows, with these totals of warnings and errors.
  function RunRow(
    o: Options, sha256: string, prior: Stats, slots: seq<Slot>, start: nat, v: nat, status: RunStatus,
    warnings: nat, errors: nat): Run
    requires v <= |slots| && start <= |slots|
  {
    var f := FiguresOf(slots, start, v);
    Run(o.target.sourceId, sha256, status, Max(start, LastRow(slots, Max(v, start))), prior.rawCount + f.raw,
        prior.normalizedCount + f.normalized, prior.duplicateCount + f.duplicates,
        prior.warningCount + warnings, prior.errorCount + errors)
  }

  // The record of this row completes a batch.
  predicate IsCheckpoint(o: Options, slots: seq<Slot>, start: nat, i: nat)
    requires i < |slots|
  {
    o.resumable && IsFresh(slots, start, i) && Batches(|FreshRecords(slots, start, i + 1)|, o.checkpointInterval)
  }

  // The number of rows up to the last checkpoint within the first n rows; 0 if there is none.
  function LastCheckpoint(o: Options, slots: seq<Slot>, start: nat, n: nat): (m: nat)
    requires n <= |slots|
    ensures m <= n
  {
    if n <= start then 0 else if IsCheckpoint(o, slots, start, n - 1) then n else LastCheckpoint(o, slots, start, n - 1)
  }

  // What does not change during a call.
  datatype Frame = Frame(sha256: string, prior: Stats, start: nat, hasFile: bool, base: map<Key, Row>,
                         runs: map<string, Run>, disk: Db)

  // What a checkpoint after m rows saves: the records so far, and the run as far as it got.
  function CheckpointImage(o: Options, slots: seq<Slot>, fr: Frame, m: nat): Db
    requires m <= |slots| && fr.start <= |slots|
  {
    var f := FiguresOf(slots, fr.start, m);
    var run := RunRow(o, fr.sha256, fr.prior, slots, fr.start, m, Running, f.warnings, f.reports);
    Db(StoredAll(o.target, fr.base, FreshRecords(slots, fr.start, m)), fr.runs[o.target.runId := run])
  }

  // The file after n rows.
  function DiskAfter(o: Options, slots: seq<Slot>, fr: Frame, n: nat): Db
    requires n <= |slots| && fr.start <= |slots|
  {
    var m := LastCheckpoint(o, slots, fr.start, n);
    if fr.hasFile && m > 0 then CheckpointImage(o, slots, fr, m) else fr.disk
  }

  // The run is the only one that the call touches.
  ghost predicate Rooted(o: Options, fr: Frame, s: LoopState) {
    var id := o.target.runId;
    && id in s.cache.db.runs && s.cache.db.runs == fr.runs[id := s.cache.db.runs[id]]
    && s.cache.db.runs[id].sourceId == o.target.sourceId && s.cache.db.runs[id].sha256 == fr.sha256
    && (s.active <==> s.cache.txn.Some?) && (s.active ==> s.cache.txn.value.before.runs == s.cache.db.runs)
    && s.cache.hasFile == fr.hasFile
  }

  ghost predicate Going(o: Options, fr: Frame, s: LoopState) {
    Rooted(o, fr, s) && s.cache.db.runs[o.target.runId].status == Running
  }

  ghost predicate Imaged(o: Options, slots: seq<Slot>, fr: Frame, n: nat, s: LoopState) {
    && n <= |slots| && fr.start <= |slots|
    && Going(o, fr, s) && s.cache.disk == DiskAfter(o, slots, fr, n)
  }

  lemma CheckpointIsDue(o: Options, k: nat, since: nat)
    requires o.checkpointInterval >= 1 && o.resumable
    requires since <= k && since < o.checkpointInterval && Batches(k - since, o.checkpointInterval)
    ensures since + 1 >= o.checkpointInterval <==> Batches(k + 1, o.checkpointInterval)
  {
    if since + 1 < o.checkpointInterval {
      BatchesAreSpaced(k - since, since + 1, o.checkpointInterval);
    }
  }

  // The database that a checkpoint writes.
  lemma CheckpointNotes(o: Options, slots: seq<Slot>, fr: Frame, n: nat, s: LoopState)
    requires fr.start < n <= |slots| && slots[n - 1].Good? && Ready(s) && Going(o, fr, s)
    requires Reported(slots, fr.start, fr.prior, n, s) && s.lastProcessedRow == n
    requires s.cache.db.records == StoredAll(o.target, fr.base, FreshRecords(slots, fr.start, n))
    ensures var saving := Checkpointed(Committed(s.cache), o.target.runId, RunningProgress(s));
            && saving.db == CheckpointImage(o, slots, fr, n)
            && saving.disk == s.cache.disk && saving.hasFile == fr.hasFile && saving.dirty && saving.txn.None?
            && saving.db.runs[o.target.runId].status == Running
  {
    assert LastRow(slots, n) == n;
    var saving := Checkpointed(Committed(s.cache), o.target.runId, RunningProgress(s));
    assert saving.db.runs == CheckpointImage(o, slots, fr, n).runs;
  }

  lemma CheckpointSaves(o: Options, slots: seq<Slot>, fr: Frame, n: nat, s: LoopState)
    requires fr.start < n <= |slots| && IsCheckpoint(o, slots, fr.start, n - 1) && Ready(s) && Going(o, fr, s)
    requires Reported(slots, fr.start, fr.prior, n, s) && s.lastProcessedRow == n
    requires s.cache.db.records == StoredAll(o.target, fr.base, FreshRecords(slots, fr.start, n))
    ensures var r := Checkpoint(o, n, s);
            && Going(o, fr, r.s)
            && (if r.thrown then r.s.cache.disk == s.cache.disk
                else r.s.cache.disk == if fr.hasFile then CheckpointImage(o, slots, fr, n) else s.cache.disk)
  {
    CheckpointNotes(o, slots, fr, n, s);
  }

  lemma DiskGrows(o: Options, slots: seq<Slot>, fr: Frame, n: nat)
    requires fr.start <= n < |slots|
    ensures DiskAfter(o, slots, fr, n + 1)
            == if !IsCheckpoint(o, slots, fr.start, n) then DiskAfter(o, slots, fr, n)
               else if fr.hasFile then CheckpointImage(o, slots, fr, n + 1) else fr.disk
    ensures !fr.hasFile ==> DiskAfter(o, slots, fr, n) == fr.disk
  {
  }

  lemma CheckpointImages(o: Options, slots: seq<Slot>, fr: Frame, n: nat, counted: LoopState)
    requires fr.start <= n < |slots| && IsCheckpoint(o, slots, fr.start, n) && Ready(counted) && Going(o, fr, counted)
    requires counted.cache.disk == DiskAfter(o, slots, fr, n)
    requires Reported(slots, fr.start, fr.prior, n + 1, counted) && counted.lastProcessedRow == n + 1
    requires counted.cache.db.records == StoredAll(o.target, fr.base, FreshRecords(slots, fr.start, n + 1))
    ensures var r := Checkpoint(o, n + 1, counted);
            if r.thrown then Going(o, fr, r.s) && r.s.cache.disk == counted.cache.disk
            else Imaged(o, slots, fr, n + 1, r.s)
  {
    DiskGrows(o, slots, fr, n);
    CheckpointSaves(o, slots, fr, n + 1, counted);
  }

  lemma UncheckedImages(o: Options, slots: seq<Slot>, fr: Frame, n: nat, counted: LoopState)
    requires fr.start <= n < |slots| && !IsCheckpoint(o, slots, fr.start, n) && Going(o, fr, counted)
    requires counted.cache.disk == DiskAfter(o, slots, fr, n)
    ensures Imaged(o, slots, fr, n + 1, counted)
  {
    DiskGrows(o, slots, fr, n);
  }

  // Behind importRecord: the callback throws, nothing is due, or a checkpoint is written.
  lemma AfterImportImages(o: Options, slots: seq<Slot>, fr: Frame, n: nat, since: nat, stored: LoopState)
    requires fr.start <= n < |slots| && IsFresh(slots, fr.start, n) && Ready(stored) && Going(o, fr, stored)
    requires stored.cache.disk == DiskAfter(o, slots, fr, n) && o.checkpointInterval >= 1
    requires stored.sinceCheckpoint == since && stored.lastProcessedRow == n + 1
    requires Reported(slots, fr.start, fr.prior, n + 1, stored)
    requires stored.cache.db.records == StoredAll(o.target, fr.base, FreshRecords(slots, fr.start, n + 1))
    requires o.resumable ==> (since + 1 >= o.checkpointInterval <==> IsCheckpoint(o, slots, fr.start, n))
    ensures var r := AfterImport(o, n + 1, stored);
            if r.thrown then Going(o, fr, r.s) && r.s.cache.disk == stored.cache.disk
            else Imaged(o, slots, fr, n + 1, r.s)
  {
    var counted := stored.(sinceCheckpoint := since + 1);
    assert Going(o, fr, counted) && Reported(slots, fr.start, fr.prior, n + 1, counted);
    if o.stop == Stop(n + 1, AtCallback) {
      assert AfterImport(o, n + 1, stored) == Step(true, stored);
    } else if IsCheckpoint(o, slots, fr.start, n) {
      assert AfterImport(o, n + 1, stored) == Checkpoint(o, n + 1, counted);
      CheckpointImages(o, slots, fr, n, counted);
    } else {
      assert AfterImport(o, n + 1, stored) == Step(false, counted);
      UncheckedImages(o, slots, fr, n, counted);
    }
  }

  lemma BatchIsDue(o: Options, slots: seq<Slot>, fr: Frame, n: nat, s: LoopState)
    requires fr.start <= n < |slots| && IsFresh(slots, fr.start, n) && o.resumable
    requires Tracks(o, slots, n, fr.start, fr.hasFile, s)
    ensures s.sinceCheckpoint + 1 >= o.checkpointInterval <==> IsCheckpoint(o, slots, fr.start, n)
  {
    CheckpointIsDue(o, |FreshRecords(slots, fr.start, n)|, s.sinceCheckpoint);
  }

  lemma StoreImages(
    o: Options, slots: seq<Slot>, fr: Frame, n: nat, s: LoopState, next: LoopState)
    requires fr.start <= n < |slots| && IsFresh(slots, fr.start, n) && next == Remembered(n + 1, slots[n], s)
    requires Tracks(o, slots, n, fr.start, fr.hasFile, s) && Filled(o, slots, fr.base, fr.start, n, s)
    requires Imaged(o, slots, fr, n, s) && s.lastProcessedRow <= n
    requires Reported(slots, fr.start, fr.prior, n + 1, Stored(o, slots[n].outcome.value, next))
    ensures var r := Store(o, n + 1, slots[n].outcome.value, next);
            if r.thrown then Going(o, fr, r.s) && r.s.cache.disk == s.cache.disk
            else Imaged(o, slots, fr, n + 1, r.s)
  {
    if o.stop != Stop(n + 1, AtImport) {
      var stored := Stored(o, slots[n].outcome.value, next);
      StoredIsFresh(o, slots, fr.base, fr.start, n, s, stored);
      assert Store(o, n + 1, slots[n].outcome.value, next) == AfterImport(o, n + 1, stored);
      if o.resumable {
        BatchIsDue(o, slots, fr, n, s);
      }
      assert Going(o, fr, stored);
      AfterImportImages(o, slots, fr, n, s.sinceCheckpoint, stored);
    }
  }

  // Before the row at pos: what the loop has stored, reported and saved.
  ghost predicate Whole(o: Options, slots: seq<Slot>, fr: Frame, pos: nat, s: LoopState) {
    && pos <= |slots| && fr.start <= |slots|
    && Batched(o, slots, fr.base, fr.prior.normalizedCount, fr.start, fr.hasFile, Max(pos, fr.start), s)
    && Reported(slots, fr.start, fr.prior, pos, s)
    && Imaged(o, slots, fr, Max(pos, fr.start), s)
  }

  lemma FreshRowImages(o: Options, slots: seq<Slot>, fr: Frame, n: nat, s: LoopState)
    requires fr.start <= n < |slots| && IsFresh(slots, fr.start, n) && Whole(o, slots, fr, n, s)
    ensures var r := Consume(o, n + 1, slots[n], s);
            if r.thrown then Going(o, fr, r.s) && r.s.cache.disk == s.cache.disk
            else Imaged(o, slots, fr, n + 1, r.s)
  {
    var record, next := slots[n].outcome.value, Remembered(n + 1, slots[n], s);
    var stored := Stored(o, record, next);
    RepeatsIsSeen(slots, fr.start, n);
    assert s.errors + [] == s.errors;
    assert Adds(slots, fr.start, n, s, stored, []);
    AddedIsReported(slots, fr.start, fr.prior, n, s, stored, []);
    StoreImages(o, slots, fr, n, s, next);
    assert Consume(o, n + 1, slots[n], s) == Store(o, n + 1, record, next);
  }

  lemma DiskStays(o: Options, slots: seq<Slot>, fr: Frame, pos: nat)
    requires pos < |slots| && fr.start <= |slots| && (pos < fr.start || !IsFresh(slots, fr.start, pos))
    ensures DiskAfter(o, slots, fr, Max(pos + 1, fr.start)) == DiskAfter(o, slots, fr, Max(pos, fr.start))
  {
    if pos >= fr.start {
      DiskGrows(o, slots, fr, pos);
    }
  }

  // A row that stores nothing, or before which an exception is raised.
  lemma OtherRowImages(o: Options, slots: seq<Slot>, fr: Frame, pos: nat, s: LoopState)
    requires pos < |slots| && Whole(o, slots, fr, pos, s)
    requires o.stop == Stop(pos + 1, BeforeRow) || pos < fr.start || !IsFresh(slots, fr.start, pos)
    ensures var r := RowStep(o, pos + 1, slots[pos], fr.start, s);
            if r.thrown then Going(o, fr, r.s) && r.s.cache.disk == s.cache.disk
            else Imaged(o, slots, fr, Max(pos + 1, fr.start), r.s)
  {
    if o.stop != Stop(pos + 1, BeforeRow) {
      DiskStays(o, slots, fr, pos);
      OtherRowLeavesTransaction(o, slots, fr.start, pos, s);
    }
  }

  lemma RowImages(o: Options, slots: seq<Slot>, fr: Frame, pos: nat, s: LoopState)
    requires pos < |slots| && Whole(o, slots, fr, pos, s)
    ensures var r := RowStep(o, pos + 1, slots[pos], fr.start, s);
            if r.thrown then Going(o, fr, r.s) && r.s.cache.disk == s.cache.disk
            else Imaged(o, slots, fr, Max(pos + 1, fr.start), r.s)
  {
    if o.stop != Stop(pos + 1, BeforeRow) && pos >= fr.start && IsFresh(slots, fr.start, pos) {
      FreshRowImages(o, slots, fr, pos, s);
    } else {
      OtherRowImages(o, slots, fr, pos, s);
    }
  }

  lemma RowKeepsWhole(o: Options, slots: seq<Slot>, fr: Frame, pos: nat, s: LoopState) returns (next: LoopState)
    requires pos < |slots| && Whole(o, slots, fr, pos, s) && !RowThrows(o, slots, pos, fr.start, fr.hasFile)
    ensures Whole(o, slots, fr, pos + 1, next)
    ensures Loop(o, slots, pos, fr.start, s) == Loop(o, slots, pos + 1, fr.start, next)
  {
    next := RowStep(o, pos + 1, slots[pos], fr.start, s).s;
    RowKeepsBatched(o, slots, fr.base, fr.prior.normalizedCount, fr.start, fr.hasFile, pos, s);
    RowReports(o, slots, fr.start, fr.prior, pos, s);
    RowImages(o, slots, fr, pos, s);
    LoopSteps(o, slots, pos, fr.start, s);
  }

  // The loop left off at row n + 1, or at the end.
  ghost predicate Left(o: Options, slots: seq<Slot>, fr: Frame, n: nat, r: Step) {
    && n <= |slots| && fr.start <= |slots|
    && Going(o, fr, r.s) && r.s.cache.disk == DiskAfter(o, slots, fr, Max(n, fr.start))
  }

  lemma EndImages(o: Options, slots: seq<Slot>, fr: Frame, s: LoopState)
    requires Whole(o, slots, fr, |slots|, s)
    ensures Left(o, slots, fr, |slots|, Loop(o, slots, |slots|, fr.start, s))
  {
  }

  lemma ThrowingRowImages(o: Options, slots: seq<Slot>, fr: Frame, n: nat, s: LoopState)
    requires n < |slots| && Whole(o, slots, fr, n, s) && RowThrows(o, slots, n, fr.start, fr.hasFile)
    ensures Left(o, slots, fr, n, Loop(o, slots, n, fr.start, s))
  {
    RowThrowsExactly(o, slots, n, fr.start, fr.hasFile, s);
    RowImages(o, slots, fr, n, s);
    LoopEnds(o, slots, fr.start, n, s);
  }

  lemma {:induction false} LoopImages(o: Options, slots: seq<Slot>, fr: Frame, pos: nat, s: LoopState, r: Step)
    requires Whole(o, slots, fr, pos, s) && r == Loop(o, slots, pos, fr.start, s)
    ensures Left(o, slots, fr, FirstThrow(o, slots, fr.start, fr.hasFile, pos), r)
    decreases |slots| - pos
  {
    if pos == |slots| {
      EndImages(o, slots, fr, s);
    } else if RowThrows(o, slots, pos, fr.start, fr.hasFile) {
      ThrowingRowImages(o, slots, fr, pos, s);
    } else {
      var next := RowKeepsWhole(o, slots, fr, pos, s);
      LoopImages(o, slots, fr, pos + 1, next, r);
    }
  }

  // ----- the whole call -----

  // How a call ends that looked at v rows, n of them without an exception from them.
  ghost predicate EndsExactly(
    o: Options, slots: seq<Slot>, fr: Frame, v: nat, n: nat, thrown: bool, out: Outcome)
    requires v <= |slots| && n <= |slots| && fr.start <= |slots|
  {
    var f := FiguresOf(slots, fr.start, v);
    // the last write failed, behind everything else
    var twice := !thrown && fr.hasFile && o.stop == Stop(|slots| + 1, AtSave);
    var completed := !thrown && !twice;
    var saved := fr.hasFile && (completed || !o.lastSaveFails);
    var warnings := if twice then 2 * f.warnings else f.warnings;
    var errors := if completed then f.reports else if twice then 2 * f.reports + 1 else f.reports + 1;
    var status := if completed then Completed else if o.resumable && o.aborted then Interrupted else Failed;
    var reports := if completed || out.result.errors == [] then out.result.errors
                   else out.result.errors[..|out.result.errors| - 1];
    // the answer
    && out.result.status == (if completed then StatusCompleted
                             else if fr.hasFile && o.lastSaveFails then PromiseRejected else StatusFailed)
    && ReportsRows(slots, fr.start, v, reports) && |reports| == f.reports
    && out.result.errors == reports + (if completed then [] else [SyncFailed])
    && out.result.warnings == f.warnings
    && out.result.stats == Counts(fr.prior, f).(warningCount := fr.prior.warningCount + warnings,
                                                errorCount := fr.prior.errorCount + errors)
    // the runs, and the file
    && out.cache.db.runs
       == fr.runs[o.target.runId := RunRow(o, fr.sha256, fr.prior, slots, fr.start, v, status, warnings, errors)]
    && out.cache.txn.None? && out.cache.hasFile == fr.hasFile && out.cache.dirty == !saved
    && out.cache.disk == (if saved then out.cache.db else DiskAfter(o, slots, fr, n))
  }

  function NotedRun(o: Options, fr: Frame, s: LoopState, stats: Stats, status: RunStatus): Run {
    Run(o.target.sourceId, fr.sha256, status, s.lastProcessedRow, stats.rawCount, stats.normalizedCount,
        stats.duplicateCount, stats.warningCount, stats.errorCount)
  }

  lemma RunIsNoted(c: CacheState, id: string, p: Progress, status: RunStatus)
    requires id in c.db.runs
    ensures Finished(Checkpointed(c, id, p), id, status)
            == c.(db := Db(c.db.records, c.db.runs[id := Advanced(c.db.runs[id], p).(status := status)]),
                  dirty := true)
  {
  }

  // The outcome of an exception in this state.
  ghost predicate IsCaught(o: Options, fr: Frame, s: LoopState, out: Outcome) {
    var saved := fr.hasFile && !o.lastSaveFails;
    var status := if o.resumable && o.aborted then Interrupted else Failed;
    var stats := s.stats.(warningCount := s.stats.warningCount + s.warnings,
                          errorCount := s.stats.errorCount + |s.errors| + 1);
    && out.result == SyncResult(if fr.hasFile && o.lastSaveFails then PromiseRejected else StatusFailed,
                                stats, s.warnings, s.errors + [SyncFailed])
    && out.cache.db.runs == fr.runs[o.target.runId := NotedRun(o, fr, s, stats, status)]
    && out.cache.txn.None? && out.cache.hasFile == fr.hasFile && out.cache.dirty == !saved
    && out.cache.disk == (if saved then out.cache.db else s.cache.disk)
  }

  lemma CaughtExactly(o: Options, fr: Frame, s: LoopState)
    requires Rooted(o, fr, s)
    ensures IsCaught(o, fr, s, Catch(o, s))
  {
    var closed, t := Closed(o, s), Totalled(s.(errors := s.errors + [SyncFailed]));
    assert closed.txn.None? && closed.db.runs == s.cache.db.runs && closed.hasFile == fr.hasFile;
    RunIsNoted(closed, o.target.runId, ProgressOf(t, t.stats.warningCount, t.stats.errorCount),
               if o.resumable && o.aborted then Interrupted else Failed);
  }

  lemma CompletedExactly(o: Options, fr: Frame, end: nat, s: LoopState)
    requires Rooted(o, fr, s) && Ready(s)
    ensures var r := Complete(o, end, s);
            var stats := Totalled(s).stats;
            && r.thrown == (fr.hasFile && o.stop == Stop(end, AtSave))
            && r.s.stats == stats && r.s.warnings == s.warnings && r.s.errors == s.errors
            && r.s.lastProcessedRow == s.lastProcessedRow
            && !r.s.active && r.s.cache.txn.None? && r.s.cache.hasFile == fr.hasFile
            && Rooted(o, fr, r.s)
            && r.s.cache.db.runs == fr.runs[o.target.runId := NotedRun(o, fr, s, stats, Completed)]
            && r.s.cache.disk == (if fr.hasFile && !r.thrown then r.s.cache.db else s.cache.disk)
            && r.s.cache.dirty == !(fr.hasFile && !r.thrown)
  {
  }

  // The row that the end notes, in terms of the rows looked at.
  lemma NotedRunIs(
    o: Options, slots: seq<Slot>, fr: Frame, v: nat, s: LoopState, stats: Stats, status: RunStatus, warnings: nat,
    errors: nat)
    requires v <= |slots| && fr.start <= |slots| && Reported(slots, fr.start, fr.prior, v, s)
    requires s.lastProcessedRow == Max(fr.start, LastRow(slots, Max(v, fr.start)))
    requires stats == s.stats.(warningCount := fr.prior.warningCount + warnings,
                               errorCount := fr.prior.errorCount + errors)
    ensures NotedRun(o, fr, s, stats, status)
            == RunRow(o, fr.sha256, fr.prior, slots, fr.start, v, status, warnings, errors)
  {
  }

  lemma WithoutLast(errors: seq<SyncError>, e: SyncError)
    ensures (errors + [e])[..|errors + [e]| - 1] == errors
  {
  }

  lemma ThrownEndsExactly(o: Options, slots: seq<Slot>, fr: Frame, v: nat, n: nat, s: LoopState, out: Outcome)
    requires v <= |slots| && n <= |slots| && fr.start <= |slots| && IsCaught(o, fr, s, out)
    requires Reported(slots, fr.start, fr.prior, v, s)
    requires s.lastProcessedRow == Max(fr.start, LastRow(slots, Max(v, fr.start)))
    requires s.cache.disk == DiskAfter(o, slots, fr, n)
    ensures EndsExactly(o, slots, fr, v, n, true, out)
  {
    var f := FiguresOf(slots, fr.start, v);
    var stats := s.stats.(warningCount := fr.prior.warningCount + f.warnings,
                          errorCount := fr.prior.errorCount + (f.reports + 1));
    WithoutLast(s.errors, SyncFailed);
    NotedRunIs(o, slots, fr, v, s, stats, if o.resumable && o.aborted then Interrupted else Failed, f.warnings,
               f.reports + 1);
  }

  // Behind the loop: the last write succeeds, or fails.
  ghost predicate Through(o: Options, slots: seq<Slot>, fr: Frame, s: LoopState) {
    && fr.start <= |slots| && Rooted(o, fr, s) && Ready(s)
    && Reported(slots, fr.start, fr.prior, |slots|, s)
    && s.lastProcessedRow == Max(fr.start, LastRow(slots, |slots|))
    && s.cache.disk == DiskAfter(o, slots, fr, |slots|)
  }

  lemma WrittenEndsExactly(o: Options, slots: seq<Slot>, fr: Frame, s: LoopState)
    requires Through(o, slots, fr, s) && !Complete(o, |slots| + 1, s).thrown
    ensures EndsExactly(o, slots, fr, |slots|, |slots|, false, Conclude(o, |slots| + 1, Step(false, s)))
  {
    var f := FiguresOf(slots, fr.start, |slots|);
    CompletedExactly(o, fr, |slots| + 1, s);
    NotedRunIs(o, slots, fr, |slots|, s, Totalled(s).stats, Completed, f.warnings, f.reports);
  }

  lemma TwiceTotalled(o: Options, slots: seq<Slot>, fr: Frame, s: LoopState, done: LoopState, out: Outcome)
    requires Through(o, slots, fr, s) && fr.hasFile && o.stop == Stop(|slots| + 1, AtSave)
    requires IsCaught(o, fr, done, out) && done == Totalled(s).(cache := done.cache, active := done.active)
    requires done.cache.disk == s.cache.disk
    ensures EndsExactly(o, slots, fr, |slots|, |slots|, false, out)
  {
    var f := FiguresOf(slots, fr.start, |slots|);
    var stats := s.stats.(warningCount := fr.prior.warningCount + 2 * f.warnings,
                          errorCount := fr.prior.errorCount + (2 * f.reports + 1));
    var status := if o.resumable && o.aborted then Interrupted else Failed;
    WithoutLast(s.errors, SyncFailed);
    NotedRunIs(o, slots, fr, |slots|, s, stats, status, 2 * f.warnings, 2 * f.reports + 1);
    assert NotedRun(o, fr, done, stats, status) == NotedRun(o, fr, s, stats, status);
  }

  lemma UnwrittenEndsExactly(o: Options, slots: seq<Slot>, fr: Frame, s: LoopState)
    requires Through(o, slots, fr, s) && Complete(o, |slots| + 1, s).thrown
    ensures EndsExactly(o, slots, fr, |slots|, |slots|, false, Conclude(o, |slots| + 1, Step(false, s)))
  {
    CompletedExactly(o, fr, |slots| + 1, s);
    var done := Complete(o, |slots| + 1, s).s;
    CaughtExactly(o, fr, done);
    TwiceTotalled(o, slots, fr, s, done, Catch(o, done));
  }

  // The same for the rows that the loop comes to.
  ghost predicate Ends(o: Options, slots: seq<Slot>, fr: Frame, out: Outcome) {
    && fr.start <= |slots|
    && var n, v := FirstThrow(o, slots, fr.start, fr.hasFile, 0), RowsSeenFrom(o, slots, fr.start, fr.hasFile, 0);
       var thrown := n < |slots| || o.stop == Stop(|slots| + 1, BeforeRow);
       EndsExactly(o, slots, fr, v, Max(n, fr.start), thrown, out)
  }

  // From the first row to the end of the call.
  lemma LoopEndsExactly(o: Options, slots: seq<Slot>, fr: Frame, begun: LoopState, looped: Step)
    requires Whole(o, slots, fr, 0, begun) && looped == Loop(o, slots, 0, fr.start, begun)
    ensures Ends(o, slots, fr, Conclude(o, |slots| + 1, looped))
  {
    LoopReports(o, slots, fr.start, fr.hasFile, fr.prior, 0, begun);
    LoopImages(o, slots, fr, 0, begun, looped);
    LoopLeaves(o, slots, fr.base, fr.prior.normalizedCount, fr.start, fr.hasFile, begun);
    var n := FirstThrow(o, slots, fr.start, fr.hasFile, 0);
    if looped.thrown {
      CaughtExactly(o, fr, looped.s);
      ThrownEndsExactly(o, slots, fr, RowsSeenFrom(o, slots, fr.start, fr.hasFile, 0), Max(n, fr.start), looped.s,
                        Catch(o, looped.s));
    } else {
      assert looped == Step(false, looped.s) && Through(o, slots, fr, looped.s);
      if Complete(o, |slots| + 1, looped.s).thrown {
        UnwrittenEndsExactly(o, slots, fr, looped.s);
      } else {
        WrittenEndsExactly(o, slots, fr, looped.s);
      }
    }
  }

  // A resumed run goes on counting, a new one starts from zero.
  function PriorOf(o: Options, c: CacheState): Stats {
    if o.resume && o.target.runId in c.db.runs then
      var run := c.db.runs[o.target.runId];
      Stats(run.rawCount, run.normalizedCount, run.duplicateCount, run.warningCount, run.errorCount)
    else Stats(0, 0, 0, 0, 0)
  }

  function FrameOf(o: Options, file: SourceFile, c: CacheState): Frame {
    Frame(file.sha256, PriorOf(o, c), StartRow(o, c), c.hasFile, c.db.records, c.db.runs, c.disk)
  }

  lemma BegunReported(slots: seq<Slot>, start: nat, prior: Stats, s: LoopState)
    requires s.errors == [] && s.warnings == 0 && s.stats == prior
    ensures Reported(slots, start, prior, 0, s)
  {
    assert RowsTaken(slots, start, 0) == RowsRepeating(slots, start, 0) == {};
    assert RowsNormalized(slots, start, 0) == ReportedRows(slots, start, 0) == {};
  }

  lemma BegunImaged(o: Options, file: SourceFile, c: CacheState)
    requires !TurnedAway(o, file, c) && c.txn.None? && StartRow(o, c) <= |file.slots|
    ensures Imaged(o, file.slots, FrameOf(o, file, c), StartRow(o, c), BegunState(o, file, c))
  {
  }

  lemma BegunIsWhole(o: Options, file: SourceFile, c: CacheState)
    requires !TurnedAway(o, file, c) && c.txn.None? && StartRow(o, c) <= |file.slots|
    ensures Whole(o, file.slots, FrameOf(o, file, c), 0, BegunState(o, file, c))
  {
    BegunBatched(o, file, c);
    BegunReported(file.slots, StartRow(o, c), PriorOf(o, c), BegunState(o, file, c));
    BegunImaged(o, file, c);
  }

  // Main result: everything but the table, after any call. (CallLeavesExactly tells the table.)
  lemma CallEndsExactly(o: Options, file: SourceFile, c: CacheState)
    requires !TurnedAway(o, file, c) && c.txn.None? && StartRow(o, c) <= |file.slots|
    ensures Ends(o, file.slots, FrameOf(o, file, c), SyncOutcome(o, file, c))
  {
    var fr, begun := FrameOf(o, file, c), BegunState(o, file, c);
    BegunIsWhole(o, file, c);
    var looped := Loop(o, file.slots, 0, fr.start, begun);
    LoopEndsExactly(o, file.slots, fr, begun, looped);
    assert SyncOutcome(o, file, c) == Conclude(o, |file.slots| + 1, looped) by {
      CallConcludes(o, file, c);
    }
  }

  // What a resumption asks for besides a valid interval and a readable file.
  predicate MayResume(o: Options, file: SourceFile, c: CacheState) {
    && o.resumable && o.target.runId in c.db.runs
    && var run := c.db.runs[o.target.runId];
       run.status == Interrupted && run.sourceId == o.target.sourceId && run.sha256 == file.sha256
  }

  // A call inside somebody else's transaction ends with its run noted.
  lemma ForeignTransactionRejects(o: Options, file: SourceFile, c: CacheState)
    requires !TurnedAway(o, file, c) && c.txn.Some?
    ensures var out, id, prior := SyncOutcome(o, file, c), o.target.runId, PriorOf(o, c);
            var status := if o.resumable && o.aborted then Interrupted else Failed;
            var run := Run(o.target.sourceId, file.sha256, status, StartRow(o, c), prior.rawCount,
                           prior.normalizedCount, prior.duplicateCount, prior.warningCount, prior.errorCount + 1);
            && out.result == SyncResult(PromiseRejected, prior.(errorCount := prior.errorCount + 1), 0, [SyncFailed])
            && out.cache == c.(db := c.db.(runs := c.db.runs[id := run]), dirty := true)
  {
    var s := InitialState(o, file, c);
    var t := Totalled(s.(errors := s.errors + [SyncFailed]));
    assert s.errors + [SyncFailed] == [SyncFailed] && !s.active;
    RunIsNoted(s.cache, o.target.runId, ProgressOf(t, t.stats.warningCount, t.stats.errorCount),
               if o.resumable && o.aborted then Interrupted else Failed);
  }

  // A call without a valid interval, a readable file or a run that may be resumed fails at once and
  // changes nothing. A call inside somebody else's transaction is rejected, with its run noted as ended.
  lemma CallIsTurnedAwayExactly(o: Options, file: SourceFile, c: CacheState)
    ensures var out, id, prior := SyncOutcome(o, file, c), o.target.runId, PriorOf(o, c);
            var refused := o.checkpointInterval < 1 || (o.stop.Stop? && o.stop.at.AtOpen?)
                           || (o.resume && !MayResume(o, file, c));
            var failed := prior.(errorCount := prior.errorCount + 1);
            var status := if o.resumable && o.aborted then Interrupted else Failed;
            var run := Run(o.target.sourceId, file.sha256, status, StartRow(o, c), failed.rawCount,
                           failed.normalizedCount, failed.duplicateCount, failed.warningCount, failed.errorCount);
            if refused then out == Outcome(SyncResult(StatusFailed, Stats(0, 0, 0, 0, 1), 0, [SyncFailed]), c)
            else if c.txn.Some? then
              && out.result == SyncResult(PromiseRejected, failed, 0, [SyncFailed])
              && out.cache == c.(db := c.db.(runs := c.db.runs[id := run]), dirty := true)
            else id in out.cache.db.runs && out.cache.db.runs[id].sourceId == o.target.sourceId
  {
    if !TurnedAway(o, file, c) {
      if c.txn.None? {
        CallLeavesRun(o, file, c);
      } else {
        ForeignTransactionRejects(o, file, c);
      }
    }
  }

  // ----- the stored rows -----

  // The table after storing some records: each carries run, retention and its own key, and the last one
  // with a key stays; all other rows are as they were.
  lemma {:induction false} StoredRowsAre(t: Target, base: map<Key, Row>, records: seq<Record>, key: Key)
    ensures var table := StoredAll(t, base, records);
            && (key in table
                <==> key in base
                     || exists k :: 0 <= k < |records| && Key(records[k].sourceId, records[k].fingerprint) == key)
            && ((forall k :: 0 <= k < |records| ==> Key(records[k].sourceId, records[k].fingerprint) != key) ==>
                  key in base ==> table[key] == base[key])
            && forall k :: 0 <= k < |records| && Key(records[k].sourceId, records[k].fingerprint) == key
                           && (forall j :: k < j < |records| ==>
                                 Key(records[j].sourceId, records[j].fingerprint) != key) ==>
                 table[key] == Row(records[k].(importRunId := Some(t.runId)), Some(t.runId), t.retainedUntil, None)
  {
    if records != [] {
      var front, last := records[..|records| - 1], records[|records| - 1];
      StoredRowsAre(t, base, front, key);
      assert forall k :: 0 <= k < |front| ==> front[k] == records[k];
      if Key(last.sourceId, last.fingerprint) == key {
        assert key == KeyOf(records[|records| - 1]);
      }
    }
  }
}
