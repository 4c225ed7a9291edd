// What the rows of a file do to one call: which of them are stored, and which make it throw.
module RowOutcomes {
  import opened Wrappers
  import opened Records
  import opened SqliteCache
  import opened RegistrySync

  // ----- the rows one call stores, read off the file -----

  function SeenBy(slots: seq<Slot>, start: nat, n: nat): set<string>
    requires n <= |slots|
  {
    if n <= start then {}
    else if slots[n - 1].Good? then SeenBy(slots, start, n - 1) + {slots[n - 1].fingerprint}
    else SeenBy(slots, start, n - 1)
  }

  // A fingerprint the loop has seen belongs to an earlier row.
  lemma {:induction false} SeenIsEarlier(slots: seq<Slot>, start: nat, n: nat, fingerprint: string) returns (i: nat)
    requires n <= |slots| && fingerprint in SeenBy(slots, start, n)
    ensures start <= i < n && slots[i].Good? && slots[i].fingerprint == fingerprint
  {
    if slots[n - 1].Good? && slots[n - 1].fingerprint == fingerprint {
      i := n - 1;
    } else {
      i := SeenIsEarlier(slots, start, n - 1, fingerprint);
    }
  }

  predicate IsFresh(slots: seq<Slot>, start: nat, i: nat)
    requires i < |slots|
  {
    slots[i].Good? && slots[i].outcome.Some? && slots[i].fingerprint !in SeenBy(slots, start, i)
  }

  // The records stored from rows start + 1 to n: first occurrences that normalize, in file order.
  function FreshRecords(slots: seq<Slot>, start: nat, n: nat): seq<Record>
    requires n <= |slots|
  {
    if n <= start then []
    else if IsFresh(slots, start, n - 1) then FreshRecords(slots, start, n - 1) + [slots[n - 1].outcome.value]
    else FreshRecords(slots, start, n - 1)
  }

  lemma {:induction false} FreshRecordsGrow(slots: seq<Slot>, start: nat, n: nat, m: nat)
    requires n <= m <= |slots|
    ensures FreshRecords(slots, start, n) <= FreshRecords(slots, start, m)
  {
    if n < m {
      FreshRecordsGrow(slots, start, n, m - 1);
    }
  }

  // The last of the first n rows that the import counts as processed.
  function LastRow(slots: seq<Slot>, n: nat): (last: nat)
    requires n <= |slots|
    ensures last <= n
  {
    if n == 0 then 0
    else if slots[n - 1].Quiet? || slots[n - 1].Refused? then LastRow(slots, n - 1)
    else n
  }

  // m records make up complete batches of the given size.
  predicate Batches(m: nat, size: int) {
    m == 0 || (1 <= size <= m && Batches(m - size, size))
  }

  lemma {:induction false} BatchesAreSpaced(m: nat, j: nat, size: int)
    requires Batches(m, size) && 0 < j < size
    ensures !Batches(m + j, size)
  {
    if m > 0 {
      BatchesAreSpaced(m - size, j, size);
    }
  }

  // ----- the rows that make a call throw -----

  // The row itself is no reason to throw.
  predicate RowAccepted(strict: bool, slots: seq<Slot>, i: nat, start: nat)
    requires i < |slots|
  {
    && !slots[i].Refused?
    && (strict ==> !slots[i].Malformed?)
    && (strict && i >= start ==>
          && !slots[i].Unmappable?
          && (slots[i].Good? ==> slots[i].outcome.Some? || slots[i].fingerprint in SeenBy(slots, start, i)))
  }

  ghost predicate Accepted(strict: bool, slots: seq<Slot>, n: nat, start: nat)
    requires n <= |slots|
  {
    forall i :: 0 <= i < n ==> RowAccepted(strict, slots, i, start)
  }

  // The outside exception is raised while the loop handles this row.
  predicate StopHits(o: Options, slots: seq<Slot>, i: nat, start: nat, hasFile: bool)
    requires i < |slots|
  {
    o.stop.Stop? && o.stop.row == i + 1
    && match o.stop.at
       case AtOpen => false
       case BeforeRow => true
       case AtImport => i >= start && IsFresh(slots, start, i)
       case AtCallback => i >= start && IsFresh(slots, start, i)
       case AtSave =>
         && i >= start && IsFresh(slots, start, i) && o.resumable && hasFile
         && Batches(|FreshRecords(slots, start, i + 1)|, o.checkpointInterval)
  }

  predicate RowThrows(o: Options, slots: seq<Slot>, i: nat, start: nat, hasFile: bool)
    requires i < |slots|
  {
    !RowAccepted(o.strict, slots, i, start) || StopHits(o, slots, i, start, hasFile)
  }

  // The loop throws for none of the first n rows.
  ghost predicate Passes(o: Options, slots: seq<Slot>, n: nat, start: nat, hasFile: bool)
    requires n <= |slots|
  {
    forall i :: 0 <= i < n ==> !RowThrows(o, slots, i, start, hasFile)
  }

  // The loop gets through to the final commit.
  ghost predicate ReachesEnd(o: Options, slots: seq<Slot>, start: nat, hasFile: bool) {
    Passes(o, slots, |slots|, start, hasFile) && o.stop != Stop(|slots| + 1, BeforeRow)
  }

  // What the loop remembers after n rows, as far as throwing depends on it.
  ghost predicate Tracks(o: Options, slots: seq<Slot>, n: nat, start: nat, hasFile: bool, s: LoopState) {
    && n <= |slots| && Ready(s) && s.cache.hasFile == hasFile && o.checkpointInterval >= 1
    && s.seen == SeenBy(slots, start, n)
    && var stored := |FreshRecords(slots, start, n)|;
       o.resumable ==>
         && s.sinceCheckpoint <= stored && s.sinceCheckpoint < o.checkpointInterval
         && Batches(stored - s.sinceCheckpoint, o.checkpointInterval)
  }

  lemma StoreThrowsExactly(o: Options, slots: seq<Slot>, i: nat, start: nat, hasFile: bool, s: LoopState)
    requires start <= i < |slots| && IsFresh(slots, start, i)
    requires Tracks(o, slots, i, start, hasFile, s)
    ensures var r := Store(o, i + 1, slots[i].outcome.value, Remembered(i + 1, slots[i], s));
            && (r.thrown <==> StopHits(o, slots, i, start, hasFile) && !o.stop.at.BeforeRow?)
            && (!r.thrown ==> Tracks(o, slots, i + 1, start, hasFile, r.s))
  {
    var stored := |FreshRecords(slots, start, i)|;
    assert |FreshRecords(slots, start, i + 1)| == stored + 1;
    var record := slots[i].outcome.value;
    if o.resumable && s.sinceCheckpoint + 1 < o.checkpointInterval {
      BatchesAreSpaced(stored - s.sinceCheckpoint, s.sinceCheckpoint + 1, o.checkpointInterval);
    }
    if o.stop != Stop(i + 1, AtImport) {
      var next := Stored(o, record, Remembered(i + 1, slots[i], s));
      assert Store(o, i + 1, record, Remembered(i + 1, slots[i], s)) == AfterImport(o, i + 1, next);
    }
  }

  lemma TakenThrowsExactly(o: Options, slots: seq<Slot>, i: nat, start: nat, hasFile: bool, s: LoopState)
    requires start <= i < |slots| && slots[i].Good? && Tracks(o, slots, i, start, hasFile, s)
    ensures var r := Consume(o, i + 1, slots[i], s);
            && (r.thrown <==> !RowAccepted(o.strict, slots, i, start)
                              || (StopHits(o, slots, i, start, hasFile) && !o.stop.at.BeforeRow?))
            && (!r.thrown ==> Tracks(o, slots, i + 1, start, hasFile, r.s))
  {
    if IsFresh(slots, start, i) {
      StoreThrowsExactly(o, slots, i, start, hasFile, s);
      assert Consume(o, i + 1, slots[i], s) == Store(o, i + 1, slots[i].outcome.value, Remembered(i + 1, slots[i], s));
    } else if slots[i].fingerprint in s.seen {
      assert s.seen + {slots[i].fingerprint} == s.seen;
    }
  }

  lemma RowThrowsExactly(o: Options, slots: seq<Slot>, pos: nat, start: nat, hasFile: bool, s: LoopState)
    requires pos < |slots| && start <= |slots| && Tracks(o, slots, Max(pos, start), start, hasFile, s)
    ensures var r := RowStep(o, pos + 1, slots[pos], start, s);
            && (r.thrown <==> RowThrows(o, slots, pos, start, hasFile))
            && (!r.thrown ==> Tracks(o, slots, Max(pos + 1, start), start, hasFile, r.s))
  {
    if slots[pos].Good? && pos >= start && o.stop != Stop(pos + 1, BeforeRow) {
      TakenThrowsExactly(o, slots, pos, start, hasFile, s);
    }
  }

  lemma {:induction false} LoopThrowsExactly(
      o: Options, slots: seq<Slot>, pos: nat, start: nat, hasFile: bool, s: LoopState)
    requires pos <= |slots| && start <= |slots| && Tracks(o, slots, Max(pos, start), start, hasFile, s)
    ensures !Loop(o, slots, pos, start, s).thrown
            <==> (forall i :: pos <= i < |slots| ==> !RowThrows(o, slots, i, start, hasFile))
                 && o.stop != Stop(|slots| + 1, BeforeRow)
    decreases |slots| - pos
  {
    if pos < |slots| {
      RowThrowsExactly(o, slots, pos, start, hasFile, s);
      var r := RowStep(o, pos + 1, slots[pos], start, s);
      if !r.thrown {
        LoopThrowsExactly(o, slots, pos + 1, start, hasFile, r.s);
      }
    }
  }

  // ----- one call -----

  function StartRow(o: Options, c: CacheState): nat {
    if o.resume && o.target.runId in c.db.runs then c.db.runs[o.target.runId].lastProcessedRow else 0
  }

  lemma BegunTracks(o: Options, file: SourceFile, c: CacheState)
    requires !TurnedAway(o, file, c) && c.txn.None? && StartRow(o, c) <= |file.slots|
    ensures Tracks(o, file.slots, StartRow(o, c), StartRow(o, c), c.hasFile, BegunState(o, file, c))
    ensures BegunState(o, file, c).lastProcessedRow == StartRow(o, c)
  {
  }

  lemma CallConcludes(o: Options, file: SourceFile, c: CacheState)
    requires !TurnedAway(o, file, c) && c.txn.None?
    ensures SyncOutcome(o, file, c)
            == Conclude(o, |file.slots| + 1, Loop(o, file.slots, 0, StartRow(o, c), BegunState(o, file, c)))
  {
  }

  // However a call ends, its run notes what the loop counted.
  lemma ConcludedRun(o: Options, end: nat, looped: Step)
    requires !looped.thrown ==> Ready(looped.s)
    requires looped.s.active ==> looped.s.cache.txn.Some?
    ensures var out := Conclude(o, end, looped);
            && out.result.stats.normalizedCount == looped.s.stats.normalizedCount
            && (o.target.runId in out.cache.db.runs ==>
                  var run := out.cache.db.runs[o.target.runId];
                  && run.lastProcessedRow == looped.s.lastProcessedRow
                  && run.normalizedCount == looped.s.stats.normalizedCount)
  {
  }

  // Main result: when the row loop of a call throws, told by the file, the options and the cache.
  lemma CallThrowsExactly(o: Options, file: SourceFile, c: CacheState)
    requires !TurnedAway(o, file, c) && c.txn.None? && StartRow(o, c) <= |file.slots|
    ensures !Loop(o, file.slots, 0, StartRow(o, c), BegunState(o, file, c)).thrown
            <==> ReachesEnd(o, file.slots, StartRow(o, c), c.hasFile)
  {
    BegunTracks(o, file, c);
    LoopThrowsExactly(o, file.slots, 0, StartRow(o, c), c.hasFile, BegunState(o, file, c));
  }

  // The run's row is there and will be whatever happens, and so is what was saved before.
  ghost predicate Anchored(t: Target, sha256: string, hasFile: bool, disk: Db, s: LoopState) {
    var id := t.runId;
    && id in s.cache.db.runs && s.cache.db.runs[id].sourceId == t.sourceId
    && s.cache.db.runs[id].sha256 == sha256 && s.cache.db.runs[id].status == Running
    && (s.active <==> s.cache.txn.Some?)
    && (s.active ==> s.cache.txn.value.before.runs == s.cache.db.runs)
    && s.cache.hasFile == hasFile
    && (s.cache.disk == disk || (id in s.cache.disk.runs && s.cache.disk.runs[id].status == Running))
  }

  lemma StoreStaysAnchored(
    o: Options, sha256: string, hasFile: bool, disk: Db, row: nat, record: Record, s: LoopState)
    requires Ready(s) && Anchored(o.target, sha256, hasFile, disk, s)
    ensures Anchored(o.target, sha256, hasFile, disk, Store(o, row, record, s).s)
  {
    if o.stop != Stop(row, AtImport) {
      var stored := Stored(o, record, s);
      assert Anchored(o.target, sha256, hasFile, disk, stored);
      assert Store(o, row, record, s) == AfterImport(o, row, stored);
    }
  }

  lemma RowStaysAnchored(
    o: Options, sha256: string, hasFile: bool, disk: Db, row: nat, slot: Slot, start: nat, s: LoopState)
    requires Ready(s) && Anchored(o.target, sha256, hasFile, disk, s)
    ensures Anchored(o.target, sha256, hasFile, disk, RowStep(o, row, slot, start, s).s)
  {
    if slot.Good? && slot.outcome.Some? && slot.fingerprint !in s.seen {
      StoreStaysAnchored(o, sha256, hasFile, disk, row, slot.outcome.value, Remembered(row, slot, s));
    }
  }

  lemma {:induction false} LoopStaysAnchored(
    o: Options, sha256: string, hasFile: bool, disk: Db, slots: seq<Slot>, pos: nat, start: nat, s: LoopState)
    requires pos <= |slots| && Ready(s) && Anchored(o.target, sha256, hasFile, disk, s)
    ensures Anchored(o.target, sha256, hasFile, disk, Loop(o, slots, pos, start, s).s)
    decreases |slots| - pos
  {
    if pos < |slots| {
      RowStaysAnchored(o, sha256, hasFile, disk, pos + 1, slots[pos], start, s);
      var r := RowStep(o, pos + 1, slots[pos], start, s);
      if !r.thrown {
        LoopStaysAnchored(o, sha256, hasFile, disk, slots, pos + 1, start, r.s);
      }
    }
  }

  // The status that a call leaves in its run, by its answer and the kind of import.
  function EndStatus(o: Options, out: Outcome): RunStatus {
    if out.result.status == StatusCompleted then Completed else if o.resumable && o.aborted then Interrupted else Failed
  }

  // What becomes of the run's row and of the saved file: the file is old, final, or a checkpoint.
  ghost predicate LeavesRun(o: Options, sha256: string, hasFile: bool, disk: Db, out: Outcome) {
    var c', id := out.cache, o.target.runId;
    && c'.txn.None? && c'.hasFile == hasFile && id in c'.db.runs
    && c'.db.runs[id].sourceId == o.target.sourceId && c'.db.runs[id].sha256 == sha256
    && c'.db.runs[id].status == EndStatus(o, out)
    && (c'.disk == disk || c'.disk == c'.db || (id in c'.disk.runs && c'.disk.runs[id].status == Running))
  }

  lemma ConcludedLeavesRun(o: Options, sha256: string, hasFile: bool, disk: Db, end: nat, looped: Step)
    requires !looped.thrown ==> Ready(looped.s)
    requires Anchored(o.target, sha256, hasFile, disk, looped.s)
    ensures LeavesRun(o, sha256, hasFile, disk, Conclude(o, end, looped))
    ensures Conclude(o, end, looped).result.status == StatusCompleted
            <==> !looped.thrown && !(hasFile && o.stop == Stop(end, AtSave))
  {
  }

  // The run's row after any call.
  lemma CallLeavesRun(o: Options, file: SourceFile, c: CacheState)
    requires !TurnedAway(o, file, c) && c.txn.None?
    ensures LeavesRun(o, file.sha256, c.hasFile, c.disk, SyncOutcome(o, file, c))
    ensures SyncOutcome(o, file, c).result.status == StatusCompleted
            <==> !Loop(o, file.slots, 0, StartRow(o, c), BegunState(o, file, c)).thrown
                 && !(c.hasFile && o.stop == Stop(|file.slots| + 1, AtSave))
  {
    var begun := BegunState(o, file, c);
    assert Anchored(o.target, file.sha256, c.hasFile, c.disk, begun);
    LoopStaysAnchored(o, file.sha256, c.hasFile, c.disk, file.slots, 0, StartRow(o, c), begun);
    CallConcludes(o, file, c);
    ConcludedLeavesRun(o, file.sha256, c.hasFile, c.disk, |file.slots| + 1,
                       Loop(o, file.slots, 0, StartRow(o, c), begun));
  }

  // A call completes exactly when its row loop gets through and the last write of the file succeeds.
  lemma CallCompletesExactly(o: Options, file: SourceFile, c: CacheState)
    requires !TurnedAway(o, file, c) && c.txn.None? && StartRow(o, c) <= |file.slots|
    ensures var out := SyncOutcome(o, file, c);
            && (out.result.status == StatusCompleted
                <==> ReachesEnd(o, file.slots, StartRow(o, c), c.hasFile)
                     && !(c.hasFile && o.stop == Stop(|file.slots| + 1, AtSave)))
            && (out.result.status == StatusCompleted ==>
                  o.target.runId in out.cache.db.runs && out.cache.db.runs[o.target.runId].status == Completed)
  {
    CallThrowsExactly(o, file, c);
    CallLeavesRun(o, file, c);
  }

  // Without an exception from outside, what decides is whether the rows are accepted.
  lemma UndisturbedCallCompletesExactly(o: Options, file: SourceFile, c: CacheState)
    requires !TurnedAway(o, file, c) && c.txn.None? && StartRow(o, c) <= |file.slots| && o.stop == Never
    ensures SyncOutcome(o, file, c).result.status == StatusCompleted
            <==> Accepted(o.strict, file.slots, |file.slots|, StartRow(o, c))
  {
    CallCompletesExactly(o, file, c);
    var start, slots := StartRow(o, c), file.slots;
    assert forall i :: 0 <= i < |slots| ==>
      (RowThrows(o, slots, i, start, c.hasFile) <==> !RowAccepted(o.strict, slots, i, start));
  }

  // No row of the file made the stream throw.
  ghost predicate NothingRefused(slots: seq<Slot>) {
    forall i :: 0 <= i < |slots| ==> !slots[i].Refused?
  }

  // A call that leaves its run completed met no refused row.
  lemma CompletedRunRefusedNothing(o: Options, file: SourceFile, c: CacheState)
    requires !TurnedAway(o, file, c) && c.txn.None? && StartRow(o, c) <= |file.slots|
    requires var db := SyncOutcome(o, file, c).cache.db;
             o.target.runId in db.runs && db.runs[o.target.runId].status == Completed
    ensures SyncOutcome(o, file, c).result.status == StatusCompleted
    ensures NothingRefused(file.slots)
  {
    CallLeavesRun(o, file, c);
    CallCompletesExactly(o, file, c);
    forall i | 0 <= i < |file.slots| ensures !file.slots[i].Refused? {
      assert !RowThrows(o, file.slots, i, StartRow(o, c), c.hasFile);
    }
  }

  // ----- what a call counts -----

  // So many records counted, and the last row noted, after n rows.
  ghost predicate Counted(slots: seq<Slot>, start: nat, prior: nat, n: nat, s: LoopState) {
    && start <= n <= |slots|
    && s.stats.normalizedCount == prior + |FreshRecords(slots, start, n)|
    && s.lastProcessedRow == Max(start, LastRow(slots, n))
  }

  ghost predicate Counting(slots: seq<Slot>, start: nat, prior: nat, n: nat, s: LoopState) {
    Counted(slots, start, prior, n, s) && Ready(s) && s.seen == SeenBy(slots, start, n)
  }

  lemma BegunCounts(o: Options, file: SourceFile, c: CacheState)
    requires !TurnedAway(o, file, c) && c.txn.None? && StartRow(o, c) <= |file.slots|
    ensures Counting(file.slots, StartRow(o, c), InitialState(o, file, c).stats.normalizedCount, StartRow(o, c),
                     BegunState(o, file, c))
  {
  }

  lemma StoreCounts(o: Options, row: nat, record: Record, s: LoopState)
    requires Ready(s)
    ensures var r := Store(o, row, record, s).s;
            && r.stats == s.stats.(normalizedCount := s.stats.normalizedCount + 1)
            && r.seen == s.seen && r.lastProcessedRow == s.lastProcessedRow
            && r.errors == s.errors && r.warnings == s.warnings
  {
    if o.stop != Stop(row, AtImport) {
      var stored := Stored(o, record, s);
      assert Store(o, row, record, s) == AfterImport(o, row, stored);
      assert AfterImport(o, row, stored).s.stats == stored.stats;
    }
  }

  lemma TakenRowCounts(o: Options, slots: seq<Slot>, start: nat, prior: nat, n: nat, s: LoopState)
    requires start <= n < |slots| && slots[n].Good? && Counting(slots, start, prior, n, s)
    ensures var r := Consume(o, n + 1, slots[n], s);
            && Counted(slots, start, prior, n + 1, r.s)
            && (!r.thrown ==> Counting(slots, start, prior, n + 1, r.s))
  {
    if IsFresh(slots, start, n) {
      StoreCounts(o, n + 1, slots[n].outcome.value, Remembered(n + 1, slots[n], s));
    } else if slots[n].fingerprint in s.seen {
      assert s.seen + {slots[n].fingerprint} == s.seen;
    }
  }

  // How many rows are read when the loop has come to this one.
  function RowsAt(o: Options, slots: seq<Slot>, pos: nat, start: nat): nat
    requires pos < |slots|
  {
    if o.stop == Stop(pos + 1, BeforeRow) || slots[pos].Refused? then Max(pos, start) else Max(pos + 1, start)
  }

  lemma RowCounts(o: Options, slots: seq<Slot>, start: nat, prior: nat, pos: nat, s: LoopState)
    requires pos < |slots| && start <= |slots| && Counting(slots, start, prior, Max(pos, start), s)
    ensures var r := RowStep(o, pos + 1, slots[pos], start, s);
            if r.thrown then Counted(slots, start, prior, RowsAt(o, slots, pos, start), r.s)
            else Counting(slots, start, prior, Max(pos + 1, start), r.s)
  {
    if slots[pos].Good? && pos >= start && o.stop != Stop(pos + 1, BeforeRow) {
      TakenRowCounts(o, slots, start, prior, pos, s);
    }
  }
}
