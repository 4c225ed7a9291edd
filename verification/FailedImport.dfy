// What a call that does not complete leaves behind: whole batches of records, no open transaction,
// and counts that add up.
module FailedImport {
  import opened Wrappers
  import opened Records
  import opened SqliteCache
  import opened RegistrySync
  import opened RowOutcomes
  import opened CallOutcomes
  import opened CallReport

  // The first m stored records are whole batches; without resumption nothing is ever committed early.
  predicate WholeBatches(o: Options, m: nat)
    requires o.checkpointInterval >= 1
  {
    if o.resumable then Batches(m, o.checkpointInterval) else m == 0
  }

  lemma KeptAreWholeBatches(o: Options, slots: seq<Slot>, start: nat, hasFile: bool)
    requires start <= |slots| && o.checkpointInterval >= 1 && !(o.resumable && o.aborted)
    requires !ReachesEnd(o, slots, start, hasFile)
    ensures var kept := KeptRecords(o, slots, start, hasFile);
            var counted := |FreshRecords(slots, start, RowsRead(o, slots, start, hasFile))|;
            && kept <= FreshRecords(slots, start, |slots|) && WholeBatches(o, |kept|) && |kept| <= counted
            && (o.resumable ==> counted <= |kept| + o.checkpointInterval)
  {
    var n := FirstThrow(o, slots, start, hasFile, 0);
    FirstThrowTellsEnd(o, slots, start, hasFile);
    FreshRecordsGrow(slots, start, Max(n, start), |slots|);
    FreshRecordsGrow(slots, start, RowsRead(o, slots, start, hasFile), |slots|);
  }

  // A call that neither completes nor is interrupted leaves its records in whole batches. Unless it
  // is resumable that is none at all - except when only the final write of the file failed, after
  // the final commit.
  lemma FailureLeavesWholeBatches(o: Options, file: SourceFile, c: CacheState) returns (m: nat)
    requires c.txn.None? && !TurnedAway(o, file, c) && StartRow(o, c) <= |file.slots|
    requires SyncOutcome(o, file, c).result.status != StatusCompleted && !(o.resumable && o.aborted)
    ensures var out, start, prior := SyncOutcome(o, file, c), StartRow(o, c), InitialState(o, file, c).stats;
            var records := FreshRecords(file.slots, start, |file.slots|);
            && m <= |records|
            && out.cache.db.records == StoredAll(o.target, c.db.records, records[..m])
            && if ReachesEnd(o, file.slots, start, c.hasFile) then m == |records|
               else
                 && WholeBatches(o, m)
                 && prior.normalizedCount + m <= out.result.stats.normalizedCount
                 && (o.resumable ==>
                       out.result.stats.normalizedCount <= prior.normalizedCount + m + o.checkpointInterval)
  {
    var start := StartRow(o, c);
    var records := FreshRecords(file.slots, start, |file.slots|);
    var kept := KeptRecords(o, file.slots, start, c.hasFile);
    CallLeavesExactly(o, file, c);
    FirstThrowTellsEnd(o, file.slots, start, c.hasFile);
    if !ReachesEnd(o, file.slots, start, c.hasFile) {
      KeptAreWholeBatches(o, file.slots, start, c.hasFile);
    }
    m := |kept|;
    assert records[..m] == kept;
  }

  // When the last write of the file fails after everything else went well, the records stay in the
  // open cache although the call and its run have failed.
  lemma LastWriteFailureKeepsRecords(o: Options, file: SourceFile, c: CacheState)
    requires c.txn.None? && !TurnedAway(o, file, c) && StartRow(o, c) <= |file.slots| && !(o.resumable && o.aborted)
    requires c.hasFile && o.stop == Stop(|file.slots| + 1, AtSave)
    requires ReachesEnd(o, file.slots, StartRow(o, c), c.hasFile)
    ensures var out := SyncOutcome(o, file, c);
            && out.result.status != StatusCompleted
            && o.target.runId in out.cache.db.runs && out.cache.db.runs[o.target.runId].status == Failed
            && out.cache.db.records
               == StoredAll(o.target, c.db.records, FreshRecords(file.slots, StartRow(o, c), |file.slots|))
  {
    var start := StartRow(o, c);
    CallCompletesExactly(o, file, c);
    CallLeavesRun(o, file, c);
    CallLeavesExactly(o, file, c);
    FirstThrowTellsEnd(o, file.slots, start, c.hasFile);
  }

  // One row, not resumable: the call fails and the record is there.
  lemma FailedCallKeepsRecord(t: Target, sha256: string, record: Record, image: Db)
    ensures var o := Options(t, false, false, false, 1, Stop(2, AtSave), false, false);
            var file := SourceFile(sha256, [Good(record.fingerprint, 0, Some(record))]);
            var out := SyncOutcome(o, file, CacheState(image, None, true, true, image));
            && out.result.status == StatusFailed
            && KeyOf(record) in out.cache.db.records && out.cache.db.records[KeyOf(record)] == RowOf(t, record)
  {
    var o := Options(t, false, false, false, 1, Stop(2, AtSave), false, false);
    var file := SourceFile(sha256, [Good(record.fingerprint, 0, Some(record))]);
    var c := CacheState(image, None, true, true, image);
    OneFreshRow(file.slots, record);
    LastWriteFailureKeepsRecords(o, file, c);
    OneStored(t, image.records, record);
  }

  lemma OneFreshRow(slots: seq<Slot>, record: Record)
    requires |slots| == 1 && slots[0].Good? && slots[0].outcome == Some(record)
    ensures FreshRecords(slots, 0, 1) == [record] && RowAccepted(false, slots, 0, 0)
  {
    assert FreshRecords(slots, 0, 0) == [] && IsFresh(slots, 0, 0);
  }

  lemma OneStored(t: Target, base: map<Key, Row>, record: Record)
    ensures StoredAll(t, base, [record]) == base[KeyOf(record) := RowOf(t, record)]
  {
    assert [record][..0] == [] && StoredAll(t, base, []) == base;
  }

  // No call leaves a transaction of its own open; called inside somebody else's, it only rejects; and
  // a resume that is not allowed changes nothing.
  lemma NoTransactionLeftOpen(o: Options, file: SourceFile, c: CacheState)
    ensures var out := SyncOutcome(o, file, c);
            && out.cache.txn == c.txn
            && (c.txn.Some? ==> out.cache.disk == c.disk && out.cache.db.records == c.db.records)
            && (c.txn.Some? && !TurnedAway(o, file, c) ==> out.result.status == PromiseRejected)
            && (o.resume && !ResumeAllowed(o, file, c.db.runs) ==> out.cache == c && out.result.status == StatusFailed)
  {
    if !TurnedAway(o, file, c) {
      if c.txn.Some? {
        CaughtInside(o, InitialState(o, file, c));
      } else {
        CallConcludes(o, file, c);
        ConcludedOutside(o, |file.slots| + 1, Loop(o, file.slots, 0, StartRow(o, c), BegunState(o, file, c)));
      }
    }
  }

  lemma CaughtInside(o: Options, s: LoopState)
    requires !s.active && s.cache.txn.Some?
    ensures var out := Catch(o, s);
            && out.cache.txn == s.cache.txn && out.cache.disk == s.cache.disk
            && out.cache.db.records == s.cache.db.records
            && out.result.status == PromiseRejected
  {
  }

  lemma ConcludedOutside(o: Options, end: nat, looped: Step)
    requires !looped.thrown ==> Ready(looped.s)
    requires looped.s.active <==> looped.s.cache.txn.Some?
    ensures Conclude(o, end, looped).cache.txn.None?
  {
  }

  function NormalizationFailures(errors: seq<SyncError>): nat {
    if errors == [] then 0
    else
      NormalizationFailures(errors[..|errors| - 1])
      + if errors[|errors| - 1].NormalizationFailed? then 1 else 0
  }

  lemma OneMoreError(errors: seq<SyncError>, error: SyncError)
    ensures NormalizationFailures(errors + [error])
            == NormalizationFailures(errors) + if error.NormalizationFailed? then 1 else 0
  {
    assert (errors + [error])[..|errors|] == errors;
  }

  // Rows read that are not accounted for by a counter or a reported failure.
  function Unaccounted(stats: Stats, errors: seq<SyncError>): int {
    stats.rawCount - stats.normalizedCount - stats.duplicateCount - NormalizationFailures(errors)
  }

  lemma ConsumeAccounts(o: Options, slot: Slot, row: nat, s: LoopState)
    requires Ready(s) && slot.Good?
    ensures var r := Consume(o, row, slot, s); Unaccounted(r.s.stats, r.s.errors) == Unaccounted(s.stats, s.errors)
  {
    OneMoreError(s.errors, NormalizationFailed(row));
    if slot.fingerprint !in s.seen && slot.outcome.Some? {
      StoreCounts(o, row, slot.outcome.value, Remembered(row, slot, s));
    }
  }

  lemma RowAccounts(o: Options, slot: Slot, row: nat, start: nat, s: LoopState)
    requires Ready(s)
    ensures var r := RowStep(o, row, slot, start, s);
            Unaccounted(r.s.stats, r.s.errors) == Unaccounted(s.stats, s.errors)
  {
    OneMoreError(s.errors, RowParseFailed(row));
    if slot.Good? {
      ConsumeAccounts(o, slot, row, s);
    }
  }

  lemma {:induction false} LoopAccounts(o: Options, slots: seq<Slot>, pos: nat, start: nat, s: LoopState)
    requires pos <= |slots| && Ready(s)
    ensures var r := Loop(o, slots, pos, start, s); Unaccounted(r.s.stats, r.s.errors) == Unaccounted(s.stats, s.errors)
    decreases |slots| - pos
  {
    if pos < |slots| {
      RowAccounts(o, slots[pos], pos + 1, start, s);
      var r := RowStep(o, pos + 1, slots[pos], start, s);
      if !r.thrown {
        LoopAccounts(o, slots, pos + 1, start, r.s);
      }
    }
  }

  lemma CatchAccounts(o: Options, s: LoopState)
    requires s.active ==> s.cache.txn.Some?
    ensures var result := Catch(o, s).result; Unaccounted(result.stats, result.errors) == Unaccounted(s.stats, s.errors)
  {
    OneMoreError(s.errors, SyncFailed);
  }

  lemma ConcludeAccounts(o: Options, end: nat, looped: Step)
    requires !looped.thrown ==> Ready(looped.s)
    requires looped.s.active ==> looped.s.cache.txn.Some?
    ensures var result := Conclude(o, end, looped).result;
            Unaccounted(result.stats, result.errors) == Unaccounted(looped.s.stats, looped.s.errors)
  {
    if looped.thrown {
      CatchAccounts(o, looped.s);
    } else {
      CatchAccounts(o, Complete(o, end, looped.s).s);
    }
  }

  // Every row a call read is counted as normalized or duplicate, or reported as failed - exactly once.
  lemma EveryRowIsAccountedFor(o: Options, file: SourceFile, c: CacheState)
    requires c.txn.None? && !TurnedAway(o, file, c)
    ensures var result := SyncOutcome(o, file, c).result;
            Unaccounted(result.stats, result.errors) == Unaccounted(InitialState(o, file, c).stats, [])
  {
    var s := BegunState(o, file, c);
    assert s.stats == InitialState(o, file, c).stats && s.errors == [];
    var looped := Loop(o, file.slots, 0, s.lastProcessedRow, s);
    assert SyncOutcome(o, file, c) == Conclude(o, |file.slots| + 1, looped);
    assert Unaccounted(looped.s.stats, looped.s.errors) == Unaccounted(s.stats, s.errors) by {
      LoopAccounts(o, file.slots, 0, s.lastProcessedRow, s);
    }
    ConcludeAccounts(o, |file.slots| + 1, looped);
  }

  // ----- the totals of warnings and errors -----

  // The last write failed after the totals had been taken.
  ghost predicate LastWriteFails(o: Options, file: SourceFile, c: CacheState) {
    c.hasFile && o.stop == Stop(|file.slots| + 1, AtSave) && ReachesEnd(o, file.slots, StartRow(o, c), c.hasFile)
  }

  ghost predicate Totals(stats: Stats, before: Stats, warnings: nat, errors: nat) {
    stats.warningCount == before.warningCount + warnings && stats.errorCount == before.errorCount + errors
  }

  // Main result: result and run total the warnings and errors that the call returns, added to what the
  // run had before - except that a call whose last write fails adds every warning, and every error but
  // that last one, twice.
  lemma TotalsAreExact(o: Options, file: SourceFile, c: CacheState)
    requires c.txn.None? && !TurnedAway(o, file, c) && StartRow(o, c) <= |file.slots|
    ensures var out, before := SyncOutcome(o, file, c), InitialState(o, file, c).stats;
            var result, twice := out.result, LastWriteFails(o, file, c);
            && (twice ==> |result.errors| >= 1)
            && Totals(result.stats, before, if twice then 2 * result.warnings else result.warnings,
                      if twice then 2 * |result.errors| - 1 else |result.errors|)
            && (o.target.runId in out.cache.db.runs ==>
                  var run := out.cache.db.runs[o.target.runId];
                  run.warningCount == result.stats.warningCount && run.errorCount == result.stats.errorCount)
  {
    CallEndsExactly(o, file, c);
    FirstThrowTellsEnd(o, file.slots, StartRow(o, c), c.hasFile);
  }
}
