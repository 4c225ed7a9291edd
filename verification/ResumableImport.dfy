// What resumable imports promise: the data a checkpoint stands for is in the table, and an interrupted
// call leaves what its run counts - but for one exactly known kind of call, which loses a row.
module ResumableImport {
  import opened Wrappers
  import opened Records
  import opened SqliteCache
  import opened RegistrySync
  import opened RowOutcomes
  import opened CallOutcomes

  // ----- the reference: import every good row, with no dedupe, transaction or checkpoint -----

  function Imported(t: Target, slots: seq<Slot>, base: map<Key, Row>, n: nat): map<Key, Row>
    requires n <= |slots|
  {
    if n == 0 then base
    else
      var before := Imported(t, slots, base, n - 1);
      match slots[n - 1]
      case Good(_, _, Some(record)) => before[KeyOf(record) := RowOf(t, record)]
      case _ => before
  }

  function RawRows(slots: seq<Slot>, n: nat): nat
    requires n <= |slots|
  {
    if n == 0 then 0 else RawRows(slots, n - 1) + if slots[n - 1].Good? then 1 else 0
  }

  // normalize depends on the fingerprinted content only, and keeps the fingerprint.
  ghost predicate Consistent(slots: seq<Slot>) {
    && (forall i :: 0 <= i < |slots| && slots[i].Good? && slots[i].outcome.Some? ==>
          slots[i].outcome.value.fingerprint == slots[i].fingerprint)
    && (forall i, j | 0 <= i < |slots| && 0 <= j < |slots| && slots[i].Good? && slots[j].Good? ::
          slots[i].fingerprint == slots[j].fingerprint ==> slots[i].outcome == slots[j].outcome)
  }

  lemma {:induction false} LastRowStandsForRows(t: Target, slots: seq<Slot>, base: map<Key, Row>, n: nat)
    requires n <= |slots|
    ensures LastRow(slots, n) <= n
    ensures LastRow(slots, LastRow(slots, n)) == LastRow(slots, n)
    ensures Imported(t, slots, base, LastRow(slots, n)) == Imported(t, slots, base, n)
    ensures RawRows(slots, LastRow(slots, n)) == RawRows(slots, n)
  {
    if n > 0 {
      LastRowStandsForRows(t, slots, base, n - 1);
    }
  }

  // Every good row among the first n is in the reference table, whatever came after it.
  lemma {:induction false} ImportedHas(t: Target, slots: seq<Slot>, base: map<Key, Row>, n: nat, i: nat)
    requires i < n <= |slots| && Consistent(slots)
    requires slots[i].Good? && slots[i].outcome.Some?
    ensures var key := KeyOf(slots[i].outcome.value);
            var table := Imported(t, slots, base, n);
            key in table && table[key] == RowOf(t, slots[i].outcome.value)
  {
    if i < n - 1 {
      ImportedHas(t, slots, base, n - 1, i);
    }
  }

  // ----- the invariant -----

  // The run's row in db stands for exactly the data in db.
  ghost predicate Covered(t: Target, file: SourceFile, base: map<Key, Row>, db: Db) {
    && t.runId in db.runs
    && var run := db.runs[t.runId];
       && run.sha256 == file.sha256
       && run.lastProcessedRow <= |file.slots|
       && LastRow(file.slots, run.lastProcessedRow) == run.lastProcessedRow
       && db.records == Imported(t, file.slots, base, run.lastProcessedRow)
       && run.rawCount == RawRows(file.slots, run.lastProcessedRow)
  }

  ghost predicate CoveredCheckpoint(t: Target, file: SourceFile, base: map<Key, Row>, db: Db) {
    Covered(t, file, base, db) && db.runs[t.runId].status == Running
  }

  ghost predicate Synced(t: Target, slots: seq<Slot>, base: map<Key, Row>, n: nat, s: LoopState) {
    && n <= |slots|
    && s.cache.db.records == Imported(t, slots, base, n)
    && s.lastProcessedRow == LastRow(slots, n)
    && s.stats.rawCount == RawRows(slots, n)
  }

  // Transaction and file image: what a rollback restores, and what was saved, is covered.
  ghost predicate Guarded(t: Target, file: SourceFile, base: map<Key, Row>, disk: Db, s: LoopState) {
    && t.runId in s.cache.db.runs
    && s.cache.db.runs[t.runId].sha256 == file.sha256
    && (s.active <==> s.cache.txn.Some?)
    && (s.active ==> s.cache.txn.value.before.runs == s.cache.db.runs
                     && Covered(t, file, base, s.cache.txn.value.before))
    && (s.cache.disk == disk || CoveredCheckpoint(t, file, base, s.cache.disk))
  }

  ghost predicate SeenInFile(slots: seq<Slot>, n: nat, seen: set<string>)
    requires n <= |slots|
  {
    forall fingerprint :: fingerprint in seen ==>
      exists i :: 0 <= i < n && slots[i].Good? && slots[i].fingerprint == fingerprint
  }

  // Row n carries a record, and the reference table already holds it before row n.
  ghost predicate AlreadyStored(t: Target, slots: seq<Slot>, base: map<Key, Row>, n: nat)
    requires n < |slots|
  {
    slots[n].Good? && slots[n].outcome.Some? ==>
      var key, table := KeyOf(slots[n].outcome.value), Imported(t, slots, base, n);
      key in table && table[key] == RowOf(t, slots[n].outcome.value)
  }

  // importRecord fails for a record after its row was already counted as processed.
  predicate ImportFails(o: Options) {
    o.stop.Stop? && o.stop.at == AtImport
  }

  // The failing import lies behind us without having been reached: that row was a duplicate.
  ghost predicate FailurePassed(o: Options, slots: seq<Slot>, base: map<Key, Row>, start: nat, n: nat)
    requires n <= |slots|
  {
    ImportFails(o) && start < o.stop.row <= n ==> AlreadyStored(o.target, slots, base, o.stop.row - 1)
  }

  ghost predicate LoopInvariant(
    o: Options, file: SourceFile, base: map<Key, Row>, disk: Db, start: nat, n: nat, s: LoopState)
  {
    && Synced(o.target, file.slots, base, n, s)
    && Guarded(o.target, file, base, disk, s)
    && Ready(s) && s.cache.db.runs[o.target.runId].status == Running
    && SeenInFile(file.slots, n, s.seen)
    && FailurePassed(o, file.slots, base, start, n)
  }

  // The row is counted as processed, but its record did not get into the table.
  ghost predicate Lagging(o: Options, slots: seq<Slot>, base: map<Key, Row>, start: nat, n: nat, s: LoopState) {
    && start <= n < |slots| && slots[n].Good? && slots[n].outcome.Some?
    && s.active && o.stop == Stop(n + 1, AtImport)
    && s.cache.db.records == Imported(o.target, slots, base, n)
    && s.lastProcessedRow == n + 1
    && s.stats.rawCount == RawRows(slots, n + 1)
  }

  // What holds when an exception reaches the catch block.
  ghost predicate CaughtAt(
    o: Options, file: SourceFile, base: map<Key, Row>, disk: Db, start: nat, n: nat, s: LoopState)
  {
    && Guarded(o.target, file, base, disk, s)
    && ((Synced(o.target, file.slots, base, n, s) && FailurePassed(o, file.slots, base, start, n))
        || Lagging(o, file.slots, base, start, n, s))
  }

  // The state after the n-th row, however the step ended.
  ghost predicate StepInvariant(
    o: Options, file: SourceFile, base: map<Key, Row>, disk: Db, start: nat, n: nat, m: nat, r: Step)
  {
    if r.thrown then CaughtAt(o, file, base, disk, start, m, r.s)
    else LoopInvariant(o, file, base, disk, start, n, r.s)
  }

  // Commit, then note the row, then save: whatever is saved or restored later is covered.
  lemma CheckpointKeepsInvariant(
    o: Options, file: SourceFile, base: map<Key, Row>, disk: Db, start: nat, n: nat, row: nat, s: LoopState)
    requires LoopInvariant(o, file, base, disk, start, n, s)
    ensures StepInvariant(o, file, base, disk, start, n, n, Checkpoint(o, row, s))
  {
    LastRowStandsForRows(o.target, file.slots, base, n);
    var saving := s.(cache := Checkpointed(Committed(s.cache), o.target.runId, RunningProgress(s)), active := false);
    assert CoveredCheckpoint(o.target, file, base, saving.cache.db);
  }

  lemma AfterImportKeepsInvariant(
    o: Options, file: SourceFile, base: map<Key, Row>, disk: Db, start: nat, n: nat, s: LoopState)
    requires LoopInvariant(o, file, base, disk, start, n, s)
    ensures StepInvariant(o, file, base, disk, start, n, n, AfterImport(o, n, s))
  {
    if o.stop != Stop(n, AtCallback) {
      CheckpointKeepsInvariant(o, file, base, disk, start, n, n, s.(sinceCheckpoint := s.sinceCheckpoint + 1));
    }
  }

  // Row n + 1 is counted as processed, but its record is not in the table yet.
  ghost predicate AboutToStore(
    o: Options, file: SourceFile, base: map<Key, Row>, disk: Db, start: nat, n: nat, s: LoopState)
  {
    && start <= n < |file.slots| && file.slots[n].Good? && file.slots[n].outcome.Some?
    && Guarded(o.target, file, base, disk, s)
    && Ready(s) && s.cache.db.runs[o.target.runId].status == Running
    && SeenInFile(file.slots, n + 1, s.seen)
    && FailurePassed(o, file.slots, base, start, n)
    && s.cache.db.records == Imported(o.target, file.slots, base, n)
    && s.lastProcessedRow == n + 1
    && s.stats.rawCount == RawRows(file.slots, n + 1)
  }

  lemma StoreKeepsInvariant(
    o: Options, file: SourceFile, base: map<Key, Row>, disk: Db, start: nat, n: nat, record: Record, s: LoopState)
    returns (m: nat)
    requires AboutToStore(o, file, base, disk, start, n, s) && file.slots[n].outcome.value == record
    requires record.fingerprint == file.slots[n].fingerprint
    ensures StepInvariant(o, file, base, disk, start, n + 1, m, Store(o, n + 1, record, s))
  {
    if o.stop == Stop(n + 1, AtImport) {
      m := n;
    } else {
      m := n + 1;
      var next := Stored(o, record, s);
      assert LoopInvariant(o, file, base, disk, start, n + 1, next);
      assert Store(o, n + 1, record, s) == AfterImport(o, n + 1, next);
      AfterImportKeepsInvariant(o, file, base, disk, start, n + 1, next);
    }
  }

  lemma DuplicateKeepsInvariant(
    o: Options, file: SourceFile, base: map<Key, Row>, n: nat, seen: set<string>)
    requires n < |file.slots| && file.slots[n].Good? && file.slots[n].fingerprint in seen
    requires Consistent(file.slots) && SeenInFile(file.slots, n, seen)
    ensures AlreadyStored(o.target, file.slots, base, n)
    ensures Imported(o.target, file.slots, base, n + 1) == Imported(o.target, file.slots, base, n)
  {
    var slots := file.slots;
    var i :| 0 <= i < n && slots[i].Good? && slots[i].fingerprint == slots[n].fingerprint;
    if slots[n].outcome.Some? {
      ImportedHas(o.target, slots, base, n, i);
      var table := Imported(o.target, slots, base, n);
      var key := KeyOf(slots[n].outcome.value);
      assert table[key := table[key]] == table;
    }
  }

  lemma SeenGrows(slots: seq<Slot>, n: nat, seen: set<string>)
    requires n < |slots| && slots[n].Good? && SeenInFile(slots, n, seen)
    ensures SeenInFile(slots, n + 1, seen)
    ensures SeenInFile(slots, n + 1, seen + {slots[n].fingerprint})
  {
  }

  lemma UnstoredRowKeepsInvariant(
    o: Options, file: SourceFile, base: map<Key, Row>, disk: Db, start: nat, n: nat, s: LoopState)
    requires start <= n < |file.slots| && file.slots[n].Good?
    requires file.slots[n].fingerprint in s.seen || file.slots[n].outcome.None?
    requires Consistent(file.slots) && LoopInvariant(o, file, base, disk, start, n, s)
    ensures StepInvariant(o, file, base, disk, start, n + 1, n + 1, Consume(o, n + 1, file.slots[n], s))
  {
    LastRowStandsForRows(o.target, file.slots, base, n);
    if file.slots[n].fingerprint in s.seen {
      DuplicateKeepsInvariant(o, file, base, n, s.seen);
    }
  }

  lemma TakenRowKeepsInvariant(
    o: Options, file: SourceFile, base: map<Key, Row>, disk: Db, start: nat, n: nat, s: LoopState) returns (m: nat)
    requires start <= n < |file.slots| && file.slots[n].Good?
    requires Consistent(file.slots) && LoopInvariant(o, file, base, disk, start, n, s)
    ensures StepInvariant(o, file, base, disk, start, n + 1, m, Consume(o, n + 1, file.slots[n], s))
  {
    var slot := file.slots[n];
    if slot.fingerprint in s.seen || slot.outcome.None? {
      m := n + 1;
      UnstoredRowKeepsInvariant(o, file, base, disk, start, n, s);
    } else {
      var next := Remembered(n + 1, slot, s);
      LastRowStandsForRows(o.target, file.slots, base, n);
      SeenGrows(file.slots, n, s.seen);
      assert AboutToStore(o, file, base, disk, start, n, next);
      assert Consume(o, n + 1, slot, s) == Store(o, n + 1, slot.outcome.value, next);
      m := StoreKeepsInvariant(o, file, base, disk, start, n, slot.outcome.value, next);
    }
  }

  lemma ReportedRowKeepsInvariant(
    o: Options, file: SourceFile, base: map<Key, Row>, disk: Db, start: nat, pos: nat, s: LoopState)
    requires pos < |file.slots| && start <= |file.slots| && LastRow(file.slots, start) == start
    requires file.slots[pos].Malformed? || file.slots[pos].Unmappable?
    requires LoopInvariant(o, file, base, disk, start, Max(pos, start), s)
    ensures StepInvariant(o, file, base, disk, start, Max(pos + 1, start), Max(pos + 1, start),
                          StreamError(o, pos + 1, s))
  {
    LastRowStandsForRows(o.target, file.slots, base, Max(pos, start));
  }

  lemma RowKeepsInvariant(
    o: Options, file: SourceFile, base: map<Key, Row>, disk: Db, start: nat, pos: nat, s: LoopState) returns (m: nat)
    requires pos < |file.slots| && start <= |file.slots| && LastRow(file.slots, start) == start
    requires Consistent(file.slots) && LoopInvariant(o, file, base, disk, start, Max(pos, start), s)
    ensures StepInvariant(o, file, base, disk, start, Max(pos + 1, start), m,
                          RowStep(o, pos + 1, file.slots[pos], start, s))
  {
    var slot := file.slots[pos];
    m := 0;
    if o.stop == Stop(pos + 1, BeforeRow) || slot.Refused? {
      m := Max(pos, start);
    } else if slot.Malformed? || (slot.Unmappable? && pos >= start) {
      m := Max(pos + 1, start);
      ReportedRowKeepsInvariant(o, file, base, disk, start, pos, s);
    } else if slot.Good? && pos >= start {
      m := TakenRowKeepsInvariant(o, file, base, disk, start, pos, s);
    }
  }

  lemma {:induction false} LoopKeepsInvariant(
    o: Options, file: SourceFile, base: map<Key, Row>, disk: Db, start: nat, pos: nat, s: LoopState) returns (m: nat)
    requires pos <= |file.slots| && start <= |file.slots| && LastRow(file.slots, start) == start
    requires Consistent(file.slots) && LoopInvariant(o, file, base, disk, start, Max(pos, start), s)
    ensures StepInvariant(o, file, base, disk, start, |file.slots|, m, Loop(o, file.slots, pos, start, s))
    decreases |file.slots| - pos
  {
    m := |file.slots|;
    if pos < |file.slots| {
      m := RowKeepsInvariant(o, file, base, disk, start, pos, s);
      var r := RowStep(o, pos + 1, file.slots[pos], start, s);
      if !r.thrown {
        m := LoopKeepsInvariant(o, file, base, disk, start, pos + 1, r.s);
      }
    }
  }

  // ----- one call -----

  // What a caller may start from: an idle cache with the base table, or a covered interrupted run.
  ghost predicate CanContinue(o: Options, file: SourceFile, base: map<Key, Row>, c: CacheState) {
    && c.txn.None?
    && (if o.resume then ResumeAllowed(o, file, c.db.runs) ==> Covered(o.target, file, base, c.db)
        else c.db.records == base)
  }

  // The row that counts as processed last is the one whose record could not be imported.
  ghost predicate EndsAtFailure(o: Options, file: SourceFile, base: map<Key, Row>, start: nat, last: nat) {
    && ImportFails(o) && start < o.stop.row == last <= |file.slots|
    && !AlreadyStored(o.target, file.slots, base, last - 1)
  }

  // What one call makes of the cache, told by the last row it counted.
  ghost predicate CallLeaves(o: Options, file: SourceFile, base: map<Key, Row>, c: CacheState, c': CacheState) {
    && c'.txn.None?
    && o.target.runId in c'.db.runs
    && var run := c'.db.runs[o.target.runId];
       && run.status != Running
       && (run.status == Completed ==>
             Covered(o.target, file, base, c'.db) && run.lastProcessedRow == LastRow(file.slots, |file.slots|))
       && (run.status == Interrupted ==> o.resumable && o.aborted)
       && (run.status == Interrupted && !Covered(o.target, file, base, c'.db) ==>
             && EndsAtFailure(o, file, base, StartRow(o, c), run.lastProcessedRow)
             && c'.db.records == Imported(o.target, file.slots, base, run.lastProcessedRow - 1))
       && (run.status == Interrupted && Covered(o.target, file, base, c'.db) ==>
             !EndsAtFailure(o, file, base, StartRow(o, c), run.lastProcessedRow))
       && (c'.disk == c.disk || c'.disk == c'.db || CoveredCheckpoint(o.target, file, base, c'.disk))
  }

  lemma LaggingCall(o: Options, file: SourceFile, base: map<Key, Row>, c: CacheState, n: nat, s: LoopState)
    requires Guarded(o.target, file, base, c.disk, s)
    requires Lagging(o, file.slots, base, StartRow(o, c), n, s)
    ensures CallLeaves(o, file, base, c, Catch(o, s).cache)
  {
    LastRowStandsForRows(o.target, file.slots, base, n + 1);
    var c' := Catch(o, s).cache;
    assert c'.txn.None? && c'.db.runs[o.target.runId].lastProcessedRow == n + 1 == LastRow(file.slots, n + 1);
    if o.resumable && o.aborted {
      assert c'.db.records == Imported(o.target, file.slots, base, n);
    }
  }

  lemma CaughtCall(o: Options, file: SourceFile, base: map<Key, Row>, c: CacheState, n: nat, s: LoopState)
    requires CaughtAt(o, file, base, c.disk, StartRow(o, c), n, s)
    ensures CallLeaves(o, file, base, c, Catch(o, s).cache)
  {
    if Lagging(o, file.slots, base, StartRow(o, c), n, s) {
      LaggingCall(o, file, base, c, n, s);
    } else {
      LastRowStandsForRows(o.target, file.slots, base, n);
    }
  }

  lemma ConcludedCall(o: Options, file: SourceFile, base: map<Key, Row>, c: CacheState, n: nat, looped: Step)
    requires StepInvariant(o, file, base, c.disk, StartRow(o, c), |file.slots|, n, looped)
    ensures CallLeaves(o, file, base, c, Conclude(o, |file.slots| + 1, looped).cache)
  {
    if looped.thrown {
      CaughtCall(o, file, base, c, n, looped.s);
    } else {
      LastRowStandsForRows(o.target, file.slots, base, |file.slots|);
      var done := Complete(o, |file.slots| + 1, looped.s);
      if done.thrown {
        assert CaughtAt(o, file, base, c.disk, StartRow(o, c), |file.slots|, done.s);
        CaughtCall(o, file, base, c, |file.slots|, done.s);
      }
    }
  }

  lemma CallIsCovered(o: Options, file: SourceFile, base: map<Key, Row>, c: CacheState)
    requires Consistent(file.slots) && CanContinue(o, file, base, c) && !TurnedAway(o, file, c)
    ensures CallLeaves(o, file, base, c, SyncOutcome(o, file, c).cache)
  {
    var start := StartRow(o, c);
    var begun := BegunState(o, file, c);
    assert LoopInvariant(o, file, base, c.disk, start, start, begun);
    var m := LoopKeepsInvariant(o, file, base, c.disk, start, 0, begun);
    ConcludedCall(o, file, base, c, m, Loop(o, file.slots, 0, start, begun));
  }

  // ----- when a call loses a row -----

  // The calls that count a row whose record they do not have: an abort meets a failing importRecord
  // for a record that is not in the table, and no earlier row throws.
  ghost predicate LosesRow(o: Options, file: SourceFile, base: map<Key, Row>, c: CacheState) {
    && o.resumable && o.aborted && ImportFails(o)
    && StartRow(o, c) < o.stop.row <= |file.slots|
    && !AlreadyStored(o.target, file.slots, base, o.stop.row - 1)
    && Accepted(o.strict, file.slots, o.stop.row - 1, StartRow(o, c))
  }

  lemma UnstoredIsFresh(t: Target, slots: seq<Slot>, base: map<Key, Row>, start: nat, n: nat)
    requires Consistent(slots) && start <= n < |slots| && !AlreadyStored(t, slots, base, n)
    ensures IsFresh(slots, start, n)
  {
    if slots[n].fingerprint in SeenBy(slots, start, n) {
      var i := SeenIsEarlier(slots, start, n, slots[n].fingerprint);
      ImportedHas(t, slots, base, n, i);
    }
  }

  lemma LosingCallIsInterrupted(o: Options, file: SourceFile, base: map<Key, Row>, c: CacheState)
    requires Consistent(file.slots) && c.txn.None? && !TurnedAway(o, file, c)
    requires LosesRow(o, file, base, c)
    ensures var db := SyncOutcome(o, file, c).cache.db;
            && o.target.runId in db.runs && db.runs[o.target.runId].status == Interrupted
            && db.runs[o.target.runId].lastProcessedRow == o.stop.row
  {
    var start, n, slots := StartRow(o, c), o.stop.row - 1, file.slots;
    UnstoredIsFresh(o.target, slots, base, start, n);
    StoppedAt(o, slots, start, c.hasFile, n);
    CallLeavesExactly(o, file, c);
    CallLeavesRun(o, file, c);
    CallCompletesExactly(o, file, c);
  }

  // A call whose run notes a row came to it: no earlier row threw.
  lemma NotedRowIsReached(o: Options, file: SourceFile, c: CacheState, i: nat)
    requires c.txn.None? && !TurnedAway(o, file, c) && StartRow(o, c) <= |file.slots|
    requires var db := SyncOutcome(o, file, c).cache.db;
             && o.target.runId in db.runs
             && StartRow(o, c) < db.runs[o.target.runId].lastProcessedRow
             && i + 1 < db.runs[o.target.runId].lastProcessedRow
    ensures i < |file.slots| && !RowThrows(o, file.slots, i, StartRow(o, c), c.hasFile)
  {
    CallLeavesExactly(o, file, c);
  }

  lemma EndingCallAccepted(o: Options, file: SourceFile, c: CacheState)
    requires c.txn.None? && !TurnedAway(o, file, c)
    requires ImportFails(o) && StartRow(o, c) < o.stop.row <= |file.slots|
    requires var db := SyncOutcome(o, file, c).cache.db;
             o.target.runId in db.runs && db.runs[o.target.runId].lastProcessedRow == o.stop.row
    ensures Accepted(o.strict, file.slots, o.stop.row - 1, StartRow(o, c))
  {
    forall i | 0 <= i < o.stop.row - 1 ensures RowAccepted(o.strict, file.slots, i, StartRow(o, c)) {
      NotedRowIsReached(o, file, c, i);
    }
  }

  // Exactly these calls end interrupted without the data their run counts.
  lemma LosesRowExactly(o: Options, file: SourceFile, base: map<Key, Row>, c: CacheState)
    requires Consistent(file.slots) && CanContinue(o, file, base, c) && !TurnedAway(o, file, c)
    ensures var db := SyncOutcome(o, file, c).cache.db;
            && o.target.runId in db.runs
            && (LosesRow(o, file, base, c)
                <==> db.runs[o.target.runId].status == Interrupted && !Covered(o.target, file, base, db))
  {
    CallIsCovered(o, file, base, c);
    var db := SyncOutcome(o, file, c).cache.db;
    if LosesRow(o, file, base, c) {
      LosingCallIsInterrupted(o, file, base, c);
    }
    if db.runs[o.target.runId].status == Interrupted && !Covered(o.target, file, base, db) {
      EndingCallAccepted(o, file, c);
    }
  }

  // ----- the main results for one call -----

  // All but the lost row's record.
  ghost predicate CoveredButLost(o: Options, file: SourceFile, base: map<Key, Row>, db: Db) {
    && o.stop.Stop? && 0 < o.stop.row <= |file.slots|
    && o.target.runId in db.runs && db.runs[o.target.runId].lastProcessedRow == o.stop.row
    && db.records == Imported(o.target, file.slots, base, o.stop.row - 1)
  }

  // What one call makes of the cache.
  ghost predicate CallResult(o: Options, file: SourceFile, base: map<Key, Row>, c: CacheState, c': CacheState) {
    && c'.txn.None?
    && o.target.runId in c'.db.runs
    && var run := c'.db.runs[o.target.runId];
       && run.status != Running
       && (run.status == Completed ==>
             Covered(o.target, file, base, c'.db) && run.lastProcessedRow == LastRow(file.slots, |file.slots|))
       && (run.status == Interrupted ==> o.resumable && o.aborted)
       && (run.status == Interrupted && !LosesRow(o, file, base, c) ==> Covered(o.target, file, base, c'.db))
       && (LosesRow(o, file, base, c) ==>
             && run.status == Interrupted && !Covered(o.target, file, base, c'.db)
             && CoveredButLost(o, file, base, c'.db))
       && (c'.disk == c.disk || c'.disk == c'.db || CoveredCheckpoint(o.target, file, base, c'.disk))
  }

  // Main result for one call, from any state a call may start from.
  lemma CallKeepsPromises(o: Options, file: SourceFile, base: map<Key, Row>, c: CacheState)
    requires Consistent(file.slots) && CanContinue(o, file, base, c) && !TurnedAway(o, file, c)
    ensures CallResult(o, file, base, c, SyncOutcome(o, file, c).cache)
  {
    CallIsCovered(o, file, base, c);
    LosesRowExactly(o, file, base, c);
  }

  // The checkpoint never runs ahead of the data: whatever image a call leaves on disk, its table holds
  // the record of every row its run counts, unless the run failed or this is the one lost row.
  lemma SavedImageNeverRunsAhead(o: Options, file: SourceFile, base: map<Key, Row>, c: CacheState, i: nat)
    requires Consistent(file.slots) && CanContinue(o, file, base, c) && !TurnedAway(o, file, c)
    ensures var disk := SyncOutcome(o, file, c).cache.disk;
            || disk == c.disk
            || (&& o.target.runId in disk.runs
                && var run := disk.runs[o.target.runId];
                   || run.status == Failed
                   || (LosesRow(o, file, base, c) && i == o.stop.row - 1)
                   || (i < run.lastProcessedRow <= |file.slots| && file.slots[i].Good? && file.slots[i].outcome.Some?
                       ==> var record := file.slots[i].outcome.value;
                           KeyOf(record) in disk.records && disk.records[KeyOf(record)] == RowOf(o.target, record)))
  {
    CallKeepsPromises(o, file, base, c);
    var disk := SyncOutcome(o, file, c).cache.disk;
    var n :=
      if Covered(o.target, file, base, disk) then disk.runs[o.target.runId].lastProcessedRow
      else if CoveredButLost(o, file, base, disk) then o.stop.row - 1
      else 0;
    if i < n && file.slots[i].Good? && file.slots[i].outcome.Some? {
      ImportedHas(o.target, file.slots, base, n, i);
    }
  }
}
