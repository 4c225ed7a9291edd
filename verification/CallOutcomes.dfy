// What a call leaves in the table, however it ends: everything, the last checkpoint, or nothing.
module CallOutcomes {
  import opened Wrappers
  import opened Records
  import opened SqliteCache
  import opened RegistrySync
  import opened RowOutcomes

  function StoredAll(t: Target, base: map<Key, Row>, records: seq<Record>): map<Key, Row> {
    if records == [] then base
    else
      var last := records[|records| - 1];
      StoredAll(t, base, records[..|records| - 1])[KeyOf(last) := RowOf(t, last)]
  }

  // ----- what is left, read off the file -----

  // The first row at or behind pos that throws.
  function FirstThrow(o: Options, slots: seq<Slot>, start: nat, hasFile: bool, pos: nat): (n: nat)
    requires pos <= |slots|
    ensures pos <= n <= |slots|
    ensures n < |slots| ==> RowThrows(o, slots, n, start, hasFile)
    ensures forall i :: pos <= i < n ==> !RowThrows(o, slots, i, start, hasFile)
    decreases |slots| - pos
  {
    if pos == |slots| || RowThrows(o, slots, pos, start, hasFile) then pos
    else FirstThrow(o, slots, start, hasFile, pos + 1)
  }

  lemma FirstThrowTellsEnd(o: Options, slots: seq<Slot>, start: nat, hasFile: bool)
    ensures ReachesEnd(o, slots, start, hasFile)
            <==> FirstThrow(o, slots, start, hasFile, 0) == |slots| && o.stop != Stop(|slots| + 1, BeforeRow)
  {
  }

  // The loop ends where the exception is set to hit, if no earlier row is refused.
  lemma StoppedAt(o: Options, slots: seq<Slot>, start: nat, hasFile: bool, n: nat)
    requires n <= |slots| && o.stop.Stop? && o.stop.row == n + 1 && Accepted(o.strict, slots, n, start)
    requires n < |slots| ==> StopHits(o, slots, n, start, hasFile)
    ensures FirstThrow(o, slots, start, hasFile, 0) == n
  {
    forall i | 0 <= i < n ensures !RowThrows(o, slots, i, start, hasFile) {
      assert RowAccepted(o.strict, slots, i, start);
    }
    assert n < |slots| ==> RowThrows(o, slots, n, start, hasFile);
  }

  // The outside exception hits row n + 1 while its record is on the way into the table.
  predicate HitWhileStoring(o: Options, slots: seq<Slot>, n: nat, start: nat, hasFile: bool) {
    n < |slots| && StopHits(o, slots, n, start, hasFile) && !o.stop.at.BeforeRow?
  }

  // How many rows are read when the loop ends, the one that throws included if it was noted.
  function RowsRead(o: Options, slots: seq<Slot>, start: nat, hasFile: bool): (n: nat)
    requires start <= |slots|
    ensures start <= n <= |slots|
  {
    var n := FirstThrow(o, slots, start, hasFile, 0);
    if n == |slots| then n else RowsAt(o, slots, n, start)
  }

  // How many of them had their records written: all, but the last one if importRecord failed for it.
  function RowsWritten(o: Options, slots: seq<Slot>, start: nat, hasFile: bool): (n: nat)
    requires start <= |slots|
    ensures start <= n <= |slots|
  {
    var n := FirstThrow(o, slots, start, hasFile, 0);
    if HitWhileStoring(o, slots, n, start, hasFile) && o.stop.at.AtImport? then n
    else RowsRead(o, slots, start, hasFile)
  }

  // The largest whole number of batches among k records.
  function LastBatch(k: nat, size: nat): (m: nat)
    requires size >= 1
    ensures m <= k < m + size && Batches(m, size)
  {
    if k < size then 0 else size + LastBatch(k - size, size)
  }

  lemma {:induction false} LastBatchIs(m: nat, k: nat, size: nat)
    requires size >= 1 && Batches(m, size) && m <= k < m + size
    ensures LastBatch(k, size) == m
  {
    if m > 0 {
      LastBatchIs(m - size, k - size, size);
    }
  }

  // How many of the first k stored records the checkpoints have committed.
  function CommittedCount(o: Options, k: nat): (m: nat)
    requires o.checkpointInterval >= 1
    ensures m <= k
  {
    if o.resumable then LastBatch(k, o.checkpointInterval) else 0
  }

  // The records that a call leaves in the table. All that were written: when the loop got through,
  // when an abort makes the catch block commit, and when a checkpoint was committed but not saved.
  // Otherwise what the last checkpoint had committed before the row that threw.
  function KeptRecords(o: Options, slots: seq<Slot>, start: nat, hasFile: bool): seq<Record>
    requires start <= |slots| && o.checkpointInterval >= 1
  {
    var n := FirstThrow(o, slots, start, hasFile, 0);
    if || (n == |slots| && o.stop != Stop(|slots| + 1, BeforeRow))
       || (o.resumable && o.aborted)
       || (HitWhileStoring(o, slots, n, start, hasFile) && o.stop.at.AtSave?)
    then
      FreshRecords(slots, start, RowsWritten(o, slots, start, hasFile))
    else
      var records := FreshRecords(slots, start, Max(n, start));
      records[..CommittedCount(o, |records|)]
  }

  // ----- the invariant -----

  // The table has the fresh records of the first n rows, a rollback would leave the committed ones.
  ghost predicate Filled(o: Options, slots: seq<Slot>, base: map<Key, Row>, start: nat, n: nat, s: LoopState) {
    && n <= |slots| && o.checkpointInterval >= 1 && Ready(s)
    && var records := FreshRecords(slots, start, n);
       && s.cache.db.records == StoredAll(o.target, base, records)
       && s.cache.txn.value.before.records == StoredAll(o.target, base, records[..CommittedCount(o, |records|)])
  }

  ghost predicate Batched(
    o: Options, slots: seq<Slot>, base: map<Key, Row>, prior: nat, start: nat, hasFile: bool, n: nat, s: LoopState)
  {
    && Tracks(o, slots, n, start, hasFile, s) && Counting(slots, start, prior, n, s)
    && Filled(o, slots, base, start, n, s)
  }

  // The record just stored is the next fresh one.
  lemma StoredIsFresh(
    o: Options, slots: seq<Slot>, base: map<Key, Row>, start: nat, n: nat, s: LoopState, stored: LoopState)
    requires start <= n < |slots| && IsFresh(slots, start, n) && Filled(o, slots, base, start, n, s)
    requires stored == Stored(o, slots[n].outcome.value, Remembered(n + 1, slots[n], s))
    ensures var records, more := FreshRecords(slots, start, n), FreshRecords(slots, start, n + 1);
            && more == records + [slots[n].outcome.value] && more[..|records|] == records
            && Ready(stored)
            && stored.cache.db.records == StoredAll(o.target, base, more)
            && stored.cache.txn.value.before == s.cache.txn.value.before
  {
  }

  // Between two checkpoints nothing more is committed; a checkpoint commits all.
  lemma OneMoreCommitted(o: Options, k: nat, since: nat)
    requires o.checkpointInterval >= 1
    requires o.resumable ==>
               since <= k && since < o.checkpointInterval && Batches(k - since, o.checkpointInterval)
    ensures CommittedCount(o, k + 1)
            == if o.resumable && since + 1 >= o.checkpointInterval then k + 1 else CommittedCount(o, k)
  {
    if o.resumable {
      LastBatchIs(k - since, k, o.checkpointInterval);
      if since + 1 < o.checkpointInterval {
        LastBatchIs(k - since, k + 1, o.checkpointInterval);
      } else {
        LastBatchIs(k + 1, k + 1, o.checkpointInterval);
      }
    }
  }

  lemma StoreKeepsFilled(
    o: Options, slots: seq<Slot>, base: map<Key, Row>, start: nat, hasFile: bool, n: nat, s: LoopState)
    requires start <= n < |slots| && IsFresh(slots, start, n)
    requires Tracks(o, slots, n, start, hasFile, s) && Filled(o, slots, base, start, n, s)
    requires !StopHits(o, slots, n, start, hasFile) || o.stop.at.BeforeRow?
    ensures var r := Store(o, n + 1, slots[n].outcome.value, Remembered(n + 1, slots[n], s));
            Filled(o, slots, base, start, n + 1, r.s)
  {
    var records, more := FreshRecords(slots, start, n), FreshRecords(slots, start, n + 1);
    var record, next := slots[n].outcome.value, Remembered(n + 1, slots[n], s);
    var stored := Stored(o, record, next);
    StoreThrowsExactly(o, slots, n, start, hasFile, s);
    StoredIsFresh(o, slots, base, start, n, s, stored);
    OneMoreCommitted(o, |records|, s.sinceCheckpoint);
    assert Store(o, n + 1, record, next) == AfterImport(o, n + 1, stored);
    var kept := CommittedCount(o, |records|);
    assert more[..kept] == records[..kept] && more[..|more|] == more;
  }

  lemma OtherRowLeavesTransaction(o: Options, slots: seq<Slot>, start: nat, pos: nat, s: LoopState)
    requires pos < |slots| && start <= |slots| && Ready(s) && s.seen == SeenBy(slots, start, Max(pos, start))
    requires o.stop == Stop(pos + 1, BeforeRow) || pos < start || !IsFresh(slots, start, pos)
    ensures var r := RowStep(o, pos + 1, slots[pos], start, s);
            r.s.cache == s.cache && r.s.active
  {
  }

  lemma RowKeepsFilled(
    o: Options, slots: seq<Slot>, base: map<Key, Row>, start: nat, hasFile: bool, pos: nat, s: LoopState)
    requires pos < |slots| && start <= |slots| && !RowThrows(o, slots, pos, start, hasFile)
    requires Tracks(o, slots, Max(pos, start), start, hasFile, s) && Filled(o, slots, base, start, Max(pos, start), s)
    ensures Filled(o, slots, base, start, Max(pos + 1, start), RowStep(o, pos + 1, slots[pos], start, s).s)
  {
    if pos >= start && IsFresh(slots, start, pos) {
      StoreKeepsFilled(o, slots, base, start, hasFile, pos, s);
      var next := Remembered(pos + 1, slots[pos], s);
      assert Consume(o, pos + 1, slots[pos], s) == Store(o, pos + 1, slots[pos].outcome.value, next);
    } else {
      OtherRowLeavesTransaction(o, slots, start, pos, s);
    }
  }

  lemma RowKeepsBatched(
    o: Options, slots: seq<Slot>, base: map<Key, Row>, prior: nat, start: nat, hasFile: bool, pos: nat, s: LoopState)
    requires pos < |slots| && start <= |slots| && !RowThrows(o, slots, pos, start, hasFile)
    requires Batched(o, slots, base, prior, start, hasFile, Max(pos, start), s)
    ensures var r := RowStep(o, pos + 1, slots[pos], start, s);
            !r.thrown && Batched(o, slots, base, prior, start, hasFile, Max(pos + 1, start), r.s)
  {
    RowThrowsExactly(o, slots, pos, start, hasFile, s);
    RowCounts(o, slots, start, prior, pos, s);
    RowKeepsFilled(o, slots, base, start, hasFile, pos, s);
  }

  lemma LoopSteps(o: Options, slots: seq<Slot>, pos: nat, start: nat, s: LoopState)
    requires pos < |slots| && Ready(s) && !RowStep(o, pos + 1, slots[pos], start, s).thrown
    ensures Loop(o, slots, pos, start, s)
            == Loop(o, slots, pos + 1, start, RowStep(o, pos + 1, slots[pos], start, s).s)
  {
  }

  // The state in which the loop comes to row n + 1.
  lemma {:induction false} BatchArrives(
    o: Options, slots: seq<Slot>, base: map<Key, Row>, prior: nat, start: nat, hasFile: bool, pos: nat, n: nat,
    s: LoopState)
    returns (at: LoopState)
    requires pos <= n <= |slots| && start <= |slots|
    requires Batched(o, slots, base, prior, start, hasFile, Max(pos, start), s)
    requires forall i :: pos <= i < n ==> !RowThrows(o, slots, i, start, hasFile)
    ensures Batched(o, slots, base, prior, start, hasFile, Max(n, start), at)
    ensures Loop(o, slots, pos, start, s) == Loop(o, slots, n, start, at)
    decreases n - pos
  {
    if pos == n {
      at := s;
    } else {
      RowKeepsBatched(o, slots, base, prior, start, hasFile, pos, s);
      LoopSteps(o, slots, pos, start, s);
      var next := RowStep(o, pos + 1, slots[pos], start, s).s;
      at := BatchArrives(o, slots, base, prior, start, hasFile, pos + 1, n, next);
    }
  }

  // ----- the row that throws -----

  // What the catch block finds: the written records, with the committed ones behind an open transaction.
  ghost predicate Caught(o: Options, base: map<Key, Row>, written: seq<Record>, committed: seq<Record>, s: LoopState) {
    && (s.active <==> s.cache.txn.Some?)
    && s.cache.db.records == StoredAll(o.target, base, written)
    && (if s.active then s.cache.txn.value.before.records == StoredAll(o.target, base, committed)
        else committed == written)
  }

  lemma StoreIsCaught(
    o: Options, slots: seq<Slot>, base: map<Key, Row>, start: nat, hasFile: bool, n: nat, s: LoopState)
    requires start <= n < |slots| && IsFresh(slots, start, n) && HitWhileStoring(o, slots, n, start, hasFile)
    requires Tracks(o, slots, n, start, hasFile, s) && Filled(o, slots, base, start, n, s)
    ensures var r := Store(o, n + 1, slots[n].outcome.value, Remembered(n + 1, slots[n], s));
            var records, more := FreshRecords(slots, start, n), FreshRecords(slots, start, n + 1);
            Caught(o, base, if o.stop.at.AtImport? then records else more,
                   if o.stop.at.AtSave? then more else records[..CommittedCount(o, |records|)], r.s)
  {
    var record, next := slots[n].outcome.value, Remembered(n + 1, slots[n], s);
    var stored := Stored(o, record, next);
    StoreThrowsExactly(o, slots, n, start, hasFile, s);
    StoredIsFresh(o, slots, base, start, n, s, stored);
    if !o.stop.at.AtImport? {
      assert Store(o, n + 1, record, next) == AfterImport(o, n + 1, stored);
    }
  }

  // A row that throws by itself, or before it is looked at, brings no record.
  lemma OtherRowIsCaught(
    o: Options, slots: seq<Slot>, base: map<Key, Row>, start: nat, hasFile: bool, n: nat, s: LoopState)
    requires n < |slots| && start <= |slots| && RowThrows(o, slots, n, start, hasFile)
    requires !HitWhileStoring(o, slots, n, start, hasFile)
    requires Tracks(o, slots, Max(n, start), start, hasFile, s) && Filled(o, slots, base, start, Max(n, start), s)
    ensures var records := FreshRecords(slots, start, Max(n, start));
            && FreshRecords(slots, start, RowsAt(o, slots, n, start)) == records
            && Caught(o, base, records, records[..CommittedCount(o, |records|)],
                      RowStep(o, n + 1, slots[n], start, s).s)
  {
    OtherRowLeavesTransaction(o, slots, start, n, s);
  }

  lemma ThrowingRowIsCaught(
    o: Options, slots: seq<Slot>, base: map<Key, Row>, prior: nat, start: nat, hasFile: bool, n: nat, s: LoopState)
    requires n < |slots| && start <= |slots| && RowThrows(o, slots, n, start, hasFile)
    requires Batched(o, slots, base, prior, start, hasFile, Max(n, start), s)
    ensures var r, hit := RowStep(o, n + 1, slots[n], start, s), HitWhileStoring(o, slots, n, start, hasFile);
            var read, records := RowsAt(o, slots, n, start), FreshRecords(slots, start, Max(n, start));
            && r.thrown && Counted(slots, start, prior, read, r.s)
            && Caught(o, base, FreshRecords(slots, start, if hit && o.stop.at.AtImport? then n else read),
                      if hit && o.stop.at.AtSave? then FreshRecords(slots, start, read)
                      else records[..CommittedCount(o, |records|)], r.s)
  {
    RowThrowsExactly(o, slots, n, start, hasFile, s);
    RowCounts(o, slots, start, prior, n, s);
    if HitWhileStoring(o, slots, n, start, hasFile) {
      StoreIsCaught(o, slots, base, start, hasFile, n, s);
      var next := Remembered(n + 1, slots[n], s);
      assert RowStep(o, n + 1, slots[n], start, s) == Store(o, n + 1, slots[n].outcome.value, next);
    } else {
      OtherRowIsCaught(o, slots, base, start, hasFile, n, s);
    }
  }

  lemma LoopEnds(o: Options, slots: seq<Slot>, start: nat, n: nat, s: LoopState)
    requires n <= |slots| && Ready(s)
    ensures n == |slots| ==> Loop(o, slots, n, start, s) == Step(o.stop == Stop(|slots| + 1, BeforeRow), s)
    ensures n < |slots| && RowStep(o, n + 1, slots[n], start, s).thrown
            ==> Loop(o, slots, n, start, s) == RowStep(o, n + 1, slots[n], start, s)
  {
  }

  // How the whole loop ends, told by the first row that throws.
  lemma LoopLeaves(
    o: Options, slots: seq<Slot>, base: map<Key, Row>, prior: nat, start: nat, hasFile: bool, begun: LoopState)
    requires start <= |slots| && Batched(o, slots, base, prior, start, hasFile, start, begun)
    ensures var n, r := FirstThrow(o, slots, start, hasFile, 0), Loop(o, slots, 0, start, begun);
            var written := FreshRecords(slots, start, RowsWritten(o, slots, start, hasFile));
            var before := FreshRecords(slots, start, Max(n, start));
            && (r.thrown <==> !(n == |slots| && o.stop != Stop(|slots| + 1, BeforeRow)))
            && Counted(slots, start, prior, RowsRead(o, slots, start, hasFile), r.s)
            && Caught(o, base, written,
                      if HitWhileStoring(o, slots, n, start, hasFile) && o.stop.at.AtSave? then written
                      else before[..CommittedCount(o, |before|)], r.s)
  {
    var n := FirstThrow(o, slots, start, hasFile, 0);
    var at := BatchArrives(o, slots, base, prior, start, hasFile, 0, n, begun);
    LoopEnds(o, slots, start, n, at);
    if n < |slots| {
      ThrowingRowIsCaught(o, slots, base, prior, start, hasFile, n, at);
    }
  }

  // ----- the results -----

  lemma BegunBatched(o: Options, file: SourceFile, c: CacheState)
    requires c.txn.None? && !TurnedAway(o, file, c) && StartRow(o, c) <= |file.slots|
    ensures Batched(o, file.slots, c.db.records, InitialState(o, file, c).stats.normalizedCount, StartRow(o, c),
                    c.hasFile, StartRow(o, c), BegunState(o, file, c))
  {
    BegunTracks(o, file, c);
    BegunCounts(o, file, c);
    assert FreshRecords(file.slots, StartRow(o, c), StartRow(o, c)) == [];
    assert CommittedCount(o, 0) == 0;
  }

  lemma CatchKeeps(o: Options, base: map<Key, Row>, written: seq<Record>, committed: seq<Record>, s: LoopState)
    requires Caught(o, base, written, committed, s)
    ensures Catch(o, s).cache.db.records
            == StoredAll(o.target, base, if o.resumable && o.aborted then written else committed)
  {
  }

  lemma ConcludeKeeps(
    o: Options, base: map<Key, Row>, end: nat, written: seq<Record>, committed: seq<Record>, looped: Step)
    requires !looped.thrown ==> Ready(looped.s)
    requires Caught(o, base, written, committed, looped.s)
    ensures var out := Conclude(o, end, looped);
            out.cache.db.records
            == StoredAll(o.target, base, if looped.thrown && !(o.resumable && o.aborted) then committed else written)
  {
    if looped.thrown {
      CatchKeeps(o, base, written, committed, looped.s);
    } else {
      CatchKeeps(o, base, written, written, Complete(o, end, looped.s).s);
    }
  }

  ghost predicate Notes(out: Outcome, id: string, count: nat, last: nat) {
    && out.result.stats.normalizedCount == count
    && (id in out.cache.db.runs ==>
          out.cache.db.runs[id].normalizedCount == count && out.cache.db.runs[id].lastProcessedRow == last)
  }

  // What a call leaves: the kept records in the table, and the number of records and the last row that
  // it notes in its result and in its run.
  ghost predicate Leaves(
    o: Options, slots: seq<Slot>, base: map<Key, Row>, prior: nat, start: nat, hasFile: bool, out: Outcome)
  {
    && start <= |slots| && o.checkpointInterval >= 1
    && out.cache.db.records == StoredAll(o.target, base, KeptRecords(o, slots, start, hasFile))
    && var read := RowsRead(o, slots, start, hasFile);
       Notes(out, o.target.runId, prior + |FreshRecords(slots, start, read)|, Max(start, LastRow(slots, read)))
  }

  lemma ConcludeNotes(o: Options, slots: seq<Slot>, start: nat, prior: nat, n: nat, end: nat, looped: Step)
    requires !looped.thrown ==> Ready(looped.s)
    requires looped.s.active ==> looped.s.cache.txn.Some?
    requires Counted(slots, start, prior, n, looped.s)
    ensures Notes(Conclude(o, end, looped), o.target.runId, prior + |FreshRecords(slots, start, n)|,
                  Max(start, LastRow(slots, n)))
  {
    ConcludedRun(o, end, looped);
  }

  lemma ConcludedLoopLeaves(
    o: Options, slots: seq<Slot>, base: map<Key, Row>, prior: nat, start: nat, hasFile: bool, begun: LoopState)
    requires start <= |slots| && Batched(o, slots, base, prior, start, hasFile, start, begun)
    ensures Leaves(o, slots, base, prior, start, hasFile, Conclude(o, |slots| + 1, Loop(o, slots, 0, start, begun)))
  {
    var n, looped := FirstThrow(o, slots, start, hasFile, 0), Loop(o, slots, 0, start, begun);
    var written := FreshRecords(slots, start, RowsWritten(o, slots, start, hasFile));
    var before := FreshRecords(slots, start, Max(n, start));
    var committed := if HitWhileStoring(o, slots, n, start, hasFile) && o.stop.at.AtSave? then written
                     else before[..CommittedCount(o, |before|)];
    LoopLeaves(o, slots, base, prior, start, hasFile, begun);
    ConcludeKeeps(o, base, |slots| + 1, written, committed, looped);
    ConcludeNotes(o, slots, start, prior, RowsRead(o, slots, start, hasFile), |slots| + 1, looped);
  }

  // Main result: the table, the count and the last row that any call leaves, however it ends.
  lemma CallLeavesExactly(o: Options, file: SourceFile, c: CacheState)
    requires c.txn.None? && !TurnedAway(o, file, c) && StartRow(o, c) <= |file.slots|
    ensures Leaves(o, file.slots, c.db.records, InitialState(o, file, c).stats.normalizedCount, StartRow(o, c),
                   c.hasFile, SyncOutcome(o, file, c))
  {
    var begun, prior := BegunState(o, file, c), InitialState(o, file, c).stats.normalizedCount;
    BegunBatched(o, file, c);
    ConcludedLoopLeaves(o, file.slots, c.db.records, prior, StartRow(o, c), c.hasFile, begun);
    CallConcludes(o, file, c);
  }
}
