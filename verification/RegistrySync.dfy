// OpenTradeRegistry.sync: a streaming import into the SQLite cache that commits every few
// records, remembers the last row it handled, and can be interrupted and resumed.
module RegistrySync {
  import opened Wrappers
  import opened Records
  import opened SqliteCache

  // What the adapter's stream makes of one physical line of the file.
  datatype Slot =
    | Quiet        // a blank line or the header
    | Malformed    // reported before the resume row is looked at
    | Unmappable   // reported, but only after the resume row
    | Refused      // the header is not acceptable: the stream throws
    | Good(fingerprint: string, warningCount: nat, outcome: Option<Record>)  // None: normalize throws

  datatype SourceFile = SourceFile(sha256: string, slots: seq<Slot>)

  // Where the first exception that the file itself does not explain is raised.
  datatype StopPoint =
    | AtOpen       // while the file is opened and hashed
    | BeforeRow    // throwIfAborted, or a read error
    | AtImport     // importRecord fails
    | AtCallback   // onRecord throws
    | AtSave       // the file image cannot be written

  datatype Stop = Never | Stop(row: nat, at: StopPoint)

  // What every call of one import has in common.
  datatype Target = Target(sourceId: string, runId: string, retainedUntil: Option<int>)

  datatype Options = Options(
    target: Target, resume: bool, resumable: bool, strict: bool, checkpointInterval: int,
    stop: Stop,           // environment: the exception, if any
    aborted: bool,        // environment: the signal's state when an exception is caught
    lastSaveFails: bool)  // environment: the image cannot be written in the catch block

  datatype SyncError = RowParseFailed(row: nat) | NormalizationFailed(row: nat) | SyncFailed

  datatype Stats = Stats(rawCount: nat, normalizedCount: nat, duplicateCount: nat, warningCount: nat, errorCount: nat)

  datatype SyncStatus = StatusCompleted | StatusFailed | PromiseRejected

  datatype SyncResult = SyncResult(status: SyncStatus, stats: Stats, warnings: nat, errors: seq<SyncError>)

  datatype Outcome = Outcome(result: SyncResult, cache: CacheState)

  // The local variables of sync, together with the cache.
  datatype LoopState = LoopState(
    cache: CacheState, active: bool, seen: set<string>, lastProcessedRow: nat, stats: Stats,
    warnings: nat, errors: seq<SyncError>, sinceCheckpoint: nat)

  datatype Step = Step(thrown: bool, s: LoopState)

  // ----- the call as a function of the file, the options and the cache -----

  predicate Ready(s: LoopState) {
    s.active && s.cache.txn.Some?
  }

  function RowOf(t: Target, record: Record): Row {
    Row(record.(importRunId := Some(t.runId)), Some(t.runId), t.retainedUntil, None)
  }

  function ProgressOf(s: LoopState, warningCount: nat, errorCount: nat): Progress {
    Progress(s.lastProcessedRow, s.stats.rawCount, s.stats.normalizedCount, s.stats.duplicateCount,
             warningCount, errorCount)
  }

  function RunningProgress(s: LoopState): Progress {
    ProgressOf(s, s.stats.warningCount + s.warnings, s.stats.errorCount + |s.errors|)
  }

  predicate CanSave(c: CacheState, writable: bool) {
    c.txn.None? && (writable || !c.hasFile || !c.dirty)
  }

  function StreamError(o: Options, row: nat, s: LoopState): Step {
    Step(o.strict, s.(lastProcessedRow := Max(s.lastProcessedRow, row), errors := s.errors + [RowParseFailed(row)]))
  }

  function Checkpoint(o: Options, row: nat, s: LoopState): Step
    requires Ready(s)
  {
    var saving := s.(cache := Checkpointed(Committed(s.cache), o.target.runId, RunningProgress(s)), active := false);
    if !CanSave(saving.cache, o.stop != Stop(row, AtSave)) then
      Step(true, saving)
    else
      Step(false, saving.(cache := Begun(Saved(saving.cache)), active := true, sinceCheckpoint := 0))
  }

  // After importRecord: the caller's callback, then perhaps a checkpoint.
  function AfterImport(o: Options, row: nat, s: LoopState): Step
    requires Ready(s)
  {
    if o.stop == Stop(row, AtCallback) then
      Step(true, s)
    else
      var next := s.(sinceCheckpoint := s.sinceCheckpoint + 1);
      if o.resumable && next.sinceCheckpoint >= o.checkpointInterval then Checkpoint(o, row, next)
      else Step(false, next)
  }

  // The record is counted and written into the open transaction.
  function Stored(o: Options, record: Record, s: LoopState): LoopState
    requires Ready(s)
  {
    s.(stats := s.stats.(normalizedCount := s.stats.normalizedCount + 1),
       cache := Upserted(s.cache, KeyOf(record), RowOf(o.target, record)))
  }

  function Store(o: Options, row: nat, record: Record, s: LoopState): Step
    requires Ready(s)
  {
    if o.stop == Stop(row, AtImport) then
      Step(true, s.(stats := s.stats.(normalizedCount := s.stats.normalizedCount + 1)))
    else
      AfterImport(o, row, Stored(o, record, s))
  }

  // The row is counted as read and processed.
  function Taken(row: nat, slot: Slot, s: LoopState): LoopState
    requires slot.Good?
  {
    s.(lastProcessedRow := Max(s.lastProcessedRow, row),
       stats := s.stats.(rawCount := s.stats.rawCount + 1),
       warnings := s.warnings + slot.warningCount)
  }

  function Remembered(row: nat, slot: Slot, s: LoopState): LoopState
    requires slot.Good?
  {
    Taken(row, slot, s).(seen := s.seen + {slot.fingerprint})
  }

  function Consume(o: Options, row: nat, slot: Slot, s: LoopState): Step
    requires slot.Good? && Ready(s)
  {
    if slot.fingerprint in s.seen then
      var taken := Taken(row, slot, s);
      Step(false, taken.(stats := taken.stats.(duplicateCount := taken.stats.duplicateCount + 1),
                         warnings := taken.warnings + 1))
    else match slot.outcome
      case None =>
        Step(o.strict, Remembered(row, slot, s).(errors := s.errors + [NormalizationFailed(row)]))
      case Some(record) => Store(o, row, record, Remembered(row, slot, s))
  }

  function RowStep(o: Options, row: nat, slot: Slot, start: nat, s: LoopState): (r: Step)
    requires Ready(s)
    ensures !r.thrown ==> Ready(r.s)
    ensures r.s.active <==> r.s.cache.txn.Some?
  {
    if o.stop == Stop(row, BeforeRow) then Step(true, s)
    else match slot
      case Quiet => Step(false, s)
      case Refused => Step(true, s)
      case Malformed => StreamError(o, row, s)
      case Unmappable => if row <= start then Step(false, s) else StreamError(o, row, s)
      case Good(_, _, _) => if row <= start then Step(false, s) else Consume(o, row, slot, s)
  }

  function Loop(o: Options, slots: seq<Slot>, pos: nat, start: nat, s: LoopState): (r: Step)
    requires pos <= |slots| && Ready(s)
    ensures !r.thrown ==> Ready(r.s)
    ensures r.s.active <==> r.s.cache.txn.Some?
    decreases |slots| - pos
  {
    if pos == |slots| then
      Step(o.stop == Stop(pos + 1, BeforeRow), s)
    else
      var r := RowStep(o, pos + 1, slots[pos], start, s);
      if r.thrown then r else Loop(o, slots, pos + 1, start, r.s)
  }

  function Totalled(s: LoopState): LoopState {
    s.(stats := s.stats.(warningCount := s.stats.warningCount + s.warnings,
                         errorCount := s.stats.errorCount + |s.errors|))
  }

  function Complete(o: Options, end: nat, s: LoopState): (r: Step)
    requires Ready(s)
    ensures r.s.cache.txn.None? && !r.s.active
  {
    var t := Totalled(s);
    var p := ProgressOf(t, t.stats.warningCount, t.stats.errorCount);
    var committed := Checkpointed(Committed(s.cache), o.target.runId, p);
    var done := t.(cache := Finished(committed, o.target.runId, Completed), active := false);
    if !CanSave(done.cache, o.stop != Stop(end, AtSave)) then Step(true, done)
    else Step(false, done.(cache := Saved(done.cache)))
  }

  // The catch block's first step: an interrupted import keeps what it has, a failed one does not.
  function Closed(o: Options, s: LoopState): CacheState
    requires s.active ==> s.cache.txn.Some?
  {
    if !s.active then s.cache else if o.resumable && o.aborted then Committed(s.cache) else RolledBack(s.cache)
  }

  function Catch(o: Options, s: LoopState): Outcome
    requires s.active ==> s.cache.txn.Some?
  {
    var keep := o.resumable && o.aborted;
    var closed := Closed(o, s);
    var t := Totalled(s.(errors := s.errors + [SyncFailed]));
    var p := ProgressOf(t, t.stats.warningCount, t.stats.errorCount);
    var marked := Finished(Checkpointed(closed, o.target.runId, p), o.target.runId,
                           if keep then Interrupted else Failed);
    if CanSave(marked, !o.lastSaveFails) then
      Outcome(SyncResult(StatusFailed, t.stats, t.warnings, t.errors), Saved(marked))
    else
      Outcome(SyncResult(PromiseRejected, t.stats, t.warnings, t.errors), marked)
  }

  predicate ResumeAllowed(o: Options, file: SourceFile, runs: map<string, Run>) {
    && o.target.runId in runs
    && o.resumable
    && runs[o.target.runId].status == Interrupted
    && runs[o.target.runId].sourceId == o.target.sourceId
    && runs[o.target.runId].sha256 == file.sha256
  }

  // The call ends before it has a run of its own.
  predicate TurnedAway(o: Options, file: SourceFile, c: CacheState) {
    || o.checkpointInterval < 1
    || (o.stop.Stop? && o.stop.at == AtOpen)
    || (o.resume && !ResumeAllowed(o, file, c.db.runs))
  }

  function InitialState(o: Options, file: SourceFile, c: CacheState): (s: LoopState)
    requires !TurnedAway(o, file, c)
    ensures s.cache.txn == c.txn && !s.active
  {
    var id := o.target.runId;
    if o.resume then
      var run := c.db.runs[id];
      LoopState(Finished(c, id, Running), false, {}, run.lastProcessedRow,
                Stats(run.rawCount, run.normalizedCount, run.duplicateCount, run.warningCount, run.errorCount),
                0, [], 0)
    else
      LoopState(WithRun(c, id, FreshRun(o.target.sourceId, file.sha256)), false, {}, 0, Stats(0, 0, 0, 0, 0), 0, [], 0)
  }

  // Everything after the row loop: the final commit, or the catch block.
  function Conclude(o: Options, end: nat, looped: Step): Outcome
    requires !looped.thrown ==> Ready(looped.s)
    requires looped.s.active ==> looped.s.cache.txn.Some?
  {
    if looped.thrown then Catch(o, looped.s)
    else
      var done := Complete(o, end, looped.s);
      if done.thrown then Catch(o, done.s)
      else Outcome(SyncResult(StatusCompleted, done.s.stats, done.s.warnings, done.s.errors), done.s.cache)
  }

  // The state in which the row loop starts.
  function BegunState(o: Options, file: SourceFile, c: CacheState): (s: LoopState)
    requires !TurnedAway(o, file, c) && c.txn.None?
    ensures Ready(s)
  {
    var s := InitialState(o, file, c);
    s.(cache := Begun(s.cache), active := true)
  }

  function SyncOutcome(o: Options, file: SourceFile, c: CacheState): Outcome {
    if TurnedAway(o, file, c) then
      Outcome(SyncResult(StatusFailed, Stats(0, 0, 0, 0, 1), 0, [SyncFailed]), c)
    else if c.txn.Some? then
      Catch(o, InitialState(o, file, c))
    else
      var s := BegunState(o, file, c);
      Conclude(o, |file.slots| + 1, Loop(o, file.slots, 0, s.lastProcessedRow, s))
  }

  // ----- the call as it runs: its local variables are the fields; true means an exception -----

  class SyncCall {
    const o: Options
    const cache: OpenTradeSqliteCache
    var cacheTransactionActive: bool
    var seenFingerprints: set<string>
    var lastProcessedRow: nat
    var stats: Stats
    var warnings: nat
    var errors: seq<SyncError>
    var recordsSinceCheckpoint: nat

    ghost function Locals(): LoopState
      reads this, cache
    {
      LoopState(cache.State(), cacheTransactionActive, seenFingerprints, lastProcessedRow, stats,
                warnings, errors, recordsSinceCheckpoint)
    }

    constructor (o: Options, cache: OpenTradeSqliteCache)
      ensures this.o == o && this.cache == cache
      ensures Locals() == LoopState(cache.State(), false, {}, 0, Stats(0, 0, 0, 0, 0), 0, [], 0)
    {
      this.o, this.cache := o, cache;
      cacheTransactionActive, seenFingerprints, lastProcessedRow := false, {}, 0;
      stats, warnings, errors, recordsSinceCheckpoint := Stats(0, 0, 0, 0, 0), 0, [], 0;
    }

    method OnStreamError(row: nat) returns (thrown: bool)
      modifies this
      ensures Step(thrown, Locals()) == StreamError(o, row, old(Locals()))
    {
      lastProcessedRow := Max(lastProcessedRow, row);
      errors := errors + [RowParseFailed(row)];
      thrown := o.strict;
    }

    method WriteCheckpoint(row: nat) returns (thrown: bool)
      requires Ready(Locals()) && o.target.runId in cache.database.runs
      modifies this, cache
      ensures Step(thrown, Locals()) == Checkpoint(o, row, old(Locals()))
      ensures o.target.runId in cache.database.runs
    {
      var committed := cache.CommitImport();
      cacheTransactionActive := false;
      var noted := cache.CheckpointImportRun(
        o.target.runId,
        Progress(lastProcessedRow, stats.rawCount, stats.normalizedCount, stats.duplicateCount,
                 stats.warningCount + warnings, stats.errorCount + |errors|));
      assert committed.Some? && noted;
      var saved := cache.Save(o.stop != Stop(row, AtSave));
      if !saved {
        return true;
      }
      var begun := cache.BeginImport();
      assert begun;
      cacheTransactionActive, recordsSinceCheckpoint := true, 0;
      return false;
    }

    method StoreRecord(row: nat, record: Record) returns (thrown: bool)
      requires Ready(Locals()) && o.target.runId in cache.database.runs
      modifies this, cache
      ensures Step(thrown, Locals()) == Store(o, row, record, old(Locals()))
      ensures o.target.runId in cache.database.runs
    {
      stats := stats.(normalizedCount := stats.normalizedCount + 1);
      if o.stop == Stop(row, AtImport) {
        return true;
      }
      var imported := cache.ImportRecord(RowOf(o.target, record));
      assert imported;
      if o.stop == Stop(row, AtCallback) {
        return true;
      }
      recordsSinceCheckpoint := recordsSinceCheckpoint + 1;
      if o.resumable && recordsSinceCheckpoint >= o.checkpointInterval {
        thrown := WriteCheckpoint(row);
      } else {
        thrown := false;
      }
    }

    method TakeRecord(row: nat, slot: Slot) returns (thrown: bool)
      requires slot.Good? && Ready(Locals()) && o.target.runId in cache.database.runs
      modifies this, cache
      ensures Step(thrown, Locals()) == Consume(o, row, slot, old(Locals()))
      ensures o.target.runId in cache.database.runs
    {
      lastProcessedRow := Max(lastProcessedRow, row);
      stats := stats.(rawCount := stats.rawCount + 1);
      warnings := warnings + slot.warningCount;
      if slot.fingerprint in seenFingerprints {
        stats := stats.(duplicateCount := stats.duplicateCount + 1);
        warnings := warnings + 1;
        return false;
      }
      seenFingerprints := seenFingerprints + {slot.fingerprint};
      if slot.outcome.None? {
        errors := errors + [NormalizationFailed(row)];
        return o.strict;
      }
      assert Locals() == Remembered(row, slot, old(Locals()));
      thrown := StoreRecord(row, slot.outcome.value);
    }

    method PullRow(row: nat, slot: Slot, start: nat) returns (thrown: bool)
      requires Ready(Locals()) && o.target.runId in cache.database.runs
      modifies this, cache
      ensures Step(thrown, Locals()) == RowStep(o, row, slot, start, old(Locals()))
      ensures o.target.runId in cache.database.runs
    {
      if o.stop == Stop(row, BeforeRow) {
        return true;
      }
      thrown := false;
      match slot {
        case Quiet =>
        case Refused => thrown := true;
        case Malformed => thrown := OnStreamError(row);
        case Unmappable =>
          if row > start {
            thrown := OnStreamError(row);
          }
        case Good(_, _, _) =>
          if row > start {
            thrown := TakeRecord(row, slot);
          }
      }
    }

    method StreamRows(slots: seq<Slot>) returns (thrown: bool)
      requires Ready(Locals()) && o.target.runId in cache.database.runs
      modifies this, cache
      ensures Step(thrown, Locals()) == Loop(o, slots, 0, old(lastProcessedRow), old(Locals()))
      ensures o.target.runId in cache.database.runs
    {
      var start, pos := lastProcessedRow, 0;
      thrown := false;
      while pos < |slots|
        invariant pos <= |slots|
        invariant Ready(Locals()) && o.target.runId in cache.database.runs
        invariant Loop(o, slots, pos, start, Locals()) == old(Loop(o, slots, 0, start, Locals()))
      {
        thrown := PullRow(pos + 1, slots[pos], start);
        if thrown {
          return;
        }
        pos := pos + 1;
      }
      thrown := o.stop == Stop(pos + 1, BeforeRow);
    }

    method FinishRun(end: nat) returns (thrown: bool)
      requires Ready(Locals()) && o.target.runId in cache.database.runs
      modifies this, cache
      ensures Step(thrown, Locals()) == Complete(o, end, old(Locals()))
    {
      stats := stats.(warningCount := stats.warningCount + warnings, errorCount := stats.errorCount + |errors|);
      var committed := cache.CommitImport();
      cacheTransactionActive := false;
      var noted := cache.CheckpointImportRun(
        o.target.runId,
        Progress(lastProcessedRow, stats.rawCount, stats.normalizedCount, stats.duplicateCount,
                 stats.warningCount, stats.errorCount));
      var finished := cache.FinishImportRun(o.target.runId, Completed);
      assert committed.Some? && noted && finished;
      var saved := cache.Save(o.stop != Stop(end, AtSave));
      thrown := !saved;
    }

    method CloseTransaction()
      requires cacheTransactionActive ==> cache.State().txn.Some?
      modifies cache
      ensures cache.State() == Closed(o, old(Locals()))
    {
      if cacheTransactionActive {
        if o.resumable && o.aborted {
          var committed := cache.CommitImport();
          assert committed.Some?;
        } else {
          cache.RollbackImport();
        }
      }
    }

    method HandleException() returns (result: SyncResult)
      requires cacheTransactionActive ==> cache.State().txn.Some?
      modifies this, cache
      ensures Outcome(result, cache.State()) == Catch(o, old(Locals()))
    {
      var keep := o.resumable && o.aborted;
      CloseTransaction();
      errors := errors + [SyncFailed];
      stats := stats.(warningCount := stats.warningCount + warnings, errorCount := stats.errorCount + |errors|);
      var _ := cache.CheckpointImportRun(
        o.target.runId,
        Progress(lastProcessedRow, stats.rawCount, stats.normalizedCount, stats.duplicateCount,
                 stats.warningCount, stats.errorCount));
      var _ := cache.FinishImportRun(o.target.runId, if keep then Interrupted else Failed);
      var saved := cache.Save(!o.lastSaveFails);
      return SyncResult(if saved then StatusFailed else PromiseRejected, stats, warnings, errors);
    }
  }

  class OpenTradeRegistry {
    constructor () {}

    method Sync(o: Options, file: SourceFile, cache: OpenTradeSqliteCache) returns (result: SyncResult)
      modifies cache
      ensures Outcome(result, cache.State()) == SyncOutcome(o, file, old(cache.State()))
    {
      if TurnedAway(o, file, cache.State()) {
        return SyncResult(StatusFailed, Stats(0, 0, 0, 0, 1), 0, [SyncFailed]);
      }
      var call := new SyncCall(o, cache);
      var id := o.target.runId;
      if o.resume {
        var run := cache.database.runs[id];
        call.lastProcessedRow := run.lastProcessedRow;
        call.stats := Stats(run.rawCount, run.normalizedCount, run.duplicateCount, run.warningCount, run.errorCount);
        var resumed := cache.ResumeImportRun(id);
        assert resumed;
      } else {
        cache.StartImportRun(id, o.target.sourceId, file.sha256);
      }
      var begun := cache.BeginImport();
      if !begun {
        result := call.HandleException();
        return;
      }
      call.cacheTransactionActive := true;
      var thrown := call.StreamRows(file.slots);
      if !thrown {
        thrown := call.FinishRun(|file.slots| + 1);
      }
      if thrown {
        result := call.HandleException();
      } else {
        result := SyncResult(StatusCompleted, call.stats, call.warnings, call.errors);
      }
    }
  }
}
