// What a resumed run makes of repeated and of lost rows: when its counts are those of one call, and
// when a lost record comes back.
module ResumedRuns {
  import opened Wrappers
  import opened Records
  import opened SqliteCache
  import opened RegistrySync
  import opened RowOutcomes
  import opened ResumableImport
  import opened CallOutcomes
  import opened FailedImport

  // ----- the counts of one call -----

  lemma CallCounts(o: Options, file: SourceFile, c: CacheState) returns (m: nat)
    requires !TurnedAway(o, file, c) && c.txn.None? && StartRow(o, c) <= |file.slots|
    ensures StartRow(o, c) <= m <= |file.slots|
    ensures var out, start := SyncOutcome(o, file, c), StartRow(o, c);
            var count := InitialState(o, file, c).stats.normalizedCount + |FreshRecords(file.slots, start, m)|;
            && out.result.stats.normalizedCount == count
            && (o.target.runId in out.cache.db.runs ==>
                  var run := out.cache.db.runs[o.target.runId];
                  run.normalizedCount == count && run.lastProcessedRow == Max(start, LastRow(file.slots, m)))
            && (out.result.status == StatusCompleted ==> m == |file.slots|)
  {
    CallLeavesExactly(o, file, c);
    m := RowsRead(o, file.slots, StartRow(o, c), c.hasFile);
    if SyncOutcome(o, file, c).result.status == StatusCompleted {
      CallCompletesExactly(o, file, c);
      FirstThrowTellsEnd(o, file.slots, StartRow(o, c), c.hasFile);
    }
  }

  // ----- repeated rows -----

  // A fresh record of rows k + 1 to n has a fingerprint that the first k rows had too.
  ghost predicate RepeatsBetween(slots: seq<Slot>, k: nat, n: nat)
    requires k <= n <= |slots|
  {
    exists i :: k <= i < n && IsFresh(slots, k, i) && slots[i].fingerprint in SeenBy(slots, 0, k)
  }

  ghost predicate RepeatsAcross(slots: seq<Slot>, k: nat)
    requires k <= |slots|
  {
    RepeatsBetween(slots, k, |slots|)
  }

  lemma {:induction false} SeenSplits(slots: seq<Slot>, k: nat, n: nat)
    requires k <= n <= |slots|
    ensures SeenBy(slots, 0, n) == SeenBy(slots, 0, k) + SeenBy(slots, k, n)
  {
    if n > k {
      SeenSplits(slots, k, n - 1);
    }
  }

  // Counting anew from row k on counts at least as much, and the same exactly without repetition.
  lemma {:induction false} FreshSplits(slots: seq<Slot>, k: nat, n: nat)
    requires k <= n <= |slots|
    ensures |FreshRecords(slots, 0, n)| <= |FreshRecords(slots, 0, k)| + |FreshRecords(slots, k, n)|
    ensures |FreshRecords(slots, 0, n)| == |FreshRecords(slots, 0, k)| + |FreshRecords(slots, k, n)|
            <==> forall i :: k <= i < n && IsFresh(slots, k, i) ==> slots[i].fingerprint !in SeenBy(slots, 0, k)
  {
    if n > k {
      FreshSplits(slots, k, n - 1);
      SeenSplits(slots, k, n - 1);
    }
  }

  // Rows that nothing is made of may be skipped or not.
  lemma {:induction false} QuietRowsDoNotMatter(slots: seq<Slot>, m: nat, n: nat)
    requires m <= n <= |slots|
    ensures var k := LastRow(slots, m);
            SeenBy(slots, k, n) == SeenBy(slots, m, n) && FreshRecords(slots, k, n) == FreshRecords(slots, m, n)
  {
    if n > m {
      QuietRowsDoNotMatter(slots, m, n - 1);
    } else {
      NothingSinceLastRow(slots, m);
    }
  }

  lemma {:induction false} NothingSinceLastRow(slots: seq<Slot>, m: nat)
    requires m <= |slots|
    ensures var k := LastRow(slots, m); SeenBy(slots, k, m) == {} && FreshRecords(slots, k, m) == []
    ensures forall i :: LastRow(slots, m) <= i < m ==> !slots[i].Good?
    ensures FreshRecords(slots, 0, LastRow(slots, m)) == FreshRecords(slots, 0, m)
    ensures SeenBy(slots, 0, LastRow(slots, m)) == SeenBy(slots, 0, m)
  {
    if m > 0 && LastRow(slots, m) < m {
      NothingSinceLastRow(slots, m - 1);
    }
  }

  // Main result: the number of normalized records survives an interruption exactly when no record
  // after it repeats a fingerprint from before it. The resumed run forgets what it saw.
  lemma SplitSurvivesExactly(first: Options, second: Options, once: Options, file: SourceFile, c: CacheState)
    requires c.txn.None? && !first.resume && !TurnedAway(first, file, c)
    requires var c1 := SyncOutcome(first, file, c).cache;
             && second.resume && second.target.runId == first.target.runId && !TurnedAway(second, file, c1)
             && SyncOutcome(second, file, c1).result.status == StatusCompleted
    requires !once.resume && !TurnedAway(once, file, c) && SyncOutcome(once, file, c).result.status == StatusCompleted
    ensures var c1 := SyncOutcome(first, file, c).cache;
            var k := c1.db.runs[first.target.runId].lastProcessedRow;
            && k <= |file.slots|
            && (SyncOutcome(second, file, c1).result.stats.normalizedCount
                == SyncOutcome(once, file, c).result.stats.normalizedCount
                <==> !RepeatsAcross(file.slots, k))
  {
    var c1, n := SyncOutcome(first, file, c).cache, |file.slots|;
    NoTransactionLeftOpen(first, file, c);
    var m := CallCounts(first, file, c);
    var k := LastRow(file.slots, m);
    assert c1.db.runs[first.target.runId].lastProcessedRow == k;
    NothingSinceLastRow(file.slots, m);
    var _ := CallCounts(second, file, c1);
    var _ := CallCounts(once, file, c);
    FreshSplits(file.slots, k, n);
  }

  lemma RepeatsAcrossQuietRows(slots: seq<Slot>, k: nat)
    requires k <= |slots|
    ensures RepeatsAcross(slots, LastRow(slots, k)) <==> RepeatsAcross(slots, k)
  {
    NothingSinceLastRow(slots, k);
    forall i | k <= i < |slots| ensures IsFresh(slots, LastRow(slots, k), i) <==> IsFresh(slots, k, i) {
      QuietRowsDoNotMatter(slots, k, i);
    }
    if RepeatsAcross(slots, LastRow(slots, k)) {
      var i :| LastRow(slots, k) <= i < |slots| && IsFresh(slots, LastRow(slots, k), i)
               && slots[i].fingerprint in SeenBy(slots, 0, LastRow(slots, k));
      assert i >= k;
    }
  }

  // A call that is stopped before row k + 1 is interrupted there, if no earlier row throws.
  lemma StoppedCallIsInterrupted(o: Options, file: SourceFile, c: CacheState, k: nat)
    requires c.txn.None? && !o.resume && !TurnedAway(o, file, c)
    requires o.resumable && o.aborted && k <= |file.slots| && o.stop == Stop(k + 1, BeforeRow)
    requires Accepted(o.strict, file.slots, k, 0)
    ensures var db := SyncOutcome(o, file, c).cache.db;
            && o.target.runId in db.runs && db.runs[o.target.runId].status == Interrupted
            && db.runs[o.target.runId].lastProcessedRow == LastRow(file.slots, k)
  {
    StoppedAt(o, file.slots, 0, c.hasFile, k);
    CallLeavesExactly(o, file, c);
    CallLeavesRun(o, file, c);
    CallCompletesExactly(o, file, c);
  }

  // The main result, told by the arguments: the first call is stopped before row k + 1.
  lemma StoppedSplitSurvivesExactly(
    first: Options, second: Options, once: Options, file: SourceFile, c: CacheState, k: nat)
    requires c.txn.None? && !first.resume && !TurnedAway(first, file, c)
    requires first.resumable && first.aborted && k <= |file.slots| && first.stop == Stop(k + 1, BeforeRow)
    requires Accepted(first.strict, file.slots, k, 0)
    requires var c1 := SyncOutcome(first, file, c).cache;
             && second.resume && second.target.runId == first.target.runId && !TurnedAway(second, file, c1)
             && SyncOutcome(second, file, c1).result.status == StatusCompleted
    requires !once.resume && !TurnedAway(once, file, c) && SyncOutcome(once, file, c).result.status == StatusCompleted
    ensures var c1 := SyncOutcome(first, file, c).cache;
            SyncOutcome(second, file, c1).result.stats.normalizedCount
            == SyncOutcome(once, file, c).result.stats.normalizedCount
            <==> !RepeatsAcross(file.slots, k)
  {
    SplitSurvivesExactly(first, second, once, file, c);
    StoppedCallIsInterrupted(first, file, c, k);
    RepeatsAcrossQuietRows(file.slots, k);
  }

  // ----- refused rows in strict mode -----

  // What a resumption at row k does not look at are the rows before it.
  lemma AcceptedButOne(slots: seq<Slot>, k: nat)
    requires k <= |slots| && Accepted(true, slots, |slots|, k)
    requires forall i :: 0 <= i && i + 1 < k ==> RowAccepted(true, slots, i, 0)
    ensures Accepted(true, slots, |slots|, 0) <==> k == 0 || RowAccepted(true, slots, k - 1, 0)
  {
    forall i | k <= i < |slots| ensures RowAccepted(true, slots, i, 0) {
      assert RowAccepted(true, slots, i, k);
      SeenSplits(slots, k, i);
    }
  }

  // All but the last of the rows that a strict run noted.
  lemma StrictRunAccepts(o: Options, file: SourceFile, c: CacheState, c1: CacheState)
    requires c.txn.None? && !o.resume && o.strict && !TurnedAway(o, file, c)
    requires c1 == SyncOutcome(o, file, c).cache && o.target.runId in c1.db.runs
    ensures var k := c1.db.runs[o.target.runId].lastProcessedRow;
            k <= |file.slots| && forall i :: 0 <= i && i + 1 < k ==> RowAccepted(true, file.slots, i, 0)
    ensures c1.txn.None?
  {
    NoTransactionLeftOpen(o, file, c);
    var m := CallCounts(o, file, c);
    var k := c1.db.runs[o.target.runId].lastProcessedRow;
    forall i | 0 <= i && i + 1 < k ensures RowAccepted(true, file.slots, i, 0) {
      NotedRowIsReached(o, file, c, i);
    }
  }

  // Two strict calls, one of which resumes a run that accepted all but the last of its rows.
  lemma ResumedStrictly(second: Options, once: Options, file: SourceFile, c: CacheState, c1: CacheState)
    requires c1.txn.None? && second.resume && second.strict
    requires !TurnedAway(second, file, c1) && SyncOutcome(second, file, c1).result.status == StatusCompleted
    requires StartRow(second, c1) <= |file.slots|
    requires forall i :: 0 <= i && i + 1 < StartRow(second, c1) ==> RowAccepted(true, file.slots, i, 0)
    requires c.txn.None? && !once.resume && once.strict && once.stop == Never && !TurnedAway(once, file, c)
    ensures var k := StartRow(second, c1);
            SyncOutcome(once, file, c).result.status == StatusCompleted
            <==> k == 0 || RowAccepted(true, file.slots, k - 1, 0)
  {
    CallCompletesExactly(second, file, c1);
    forall i | 0 <= i < |file.slots| ensures RowAccepted(true, file.slots, i, StartRow(second, c1)) {
      assert !RowThrows(second, file.slots, i, StartRow(second, c1), c1.hasFile);
    }
    UndisturbedCallCompletesExactly(once, file, c);
    AcceptedButOne(file.slots, StartRow(second, c1));
  }

  // Main result: where a strict run was interrupted at row k and its resumption completes, one strict
  // call completes exactly if row k itself is acceptable. No other row can be passed over.
  lemma StrictResumeSkipsExactly(
    first: Options, second: Options, once: Options, file: SourceFile, c: CacheState, c1: CacheState)
    requires c.txn.None? && !first.resume && first.strict && !TurnedAway(first, file, c)
    requires c1 == SyncOutcome(first, file, c).cache
    requires second.resume && second.strict && second.target.runId == first.target.runId
    requires !TurnedAway(second, file, c1) && SyncOutcome(second, file, c1).result.status == StatusCompleted
    requires !once.resume && once.strict && once.stop == Never && !TurnedAway(once, file, c)
    ensures var k := c1.db.runs[first.target.runId].lastProcessedRow;
            && k <= |file.slots|
            && (SyncOutcome(once, file, c).result.status == StatusCompleted
                <==> k == 0 || RowAccepted(true, file.slots, k - 1, 0))
  {
    StrictRunAccepts(first, file, c, c1);
    ResumedStrictly(second, once, file, c, c1);
  }

  // ----- lost rows -----

  lemma CompletedCallStores(o: Options, file: SourceFile, c: CacheState)
    requires c.txn.None? && !TurnedAway(o, file, c) && StartRow(o, c) <= |file.slots|
    requires SyncOutcome(o, file, c).result.status == StatusCompleted
    ensures SyncOutcome(o, file, c).cache.db.records
            == StoredAll(o.target, c.db.records, FreshRecords(file.slots, StartRow(o, c), |file.slots|))
  {
    CallCompletesExactly(o, file, c);
    FirstThrowTellsEnd(o, file.slots, StartRow(o, c), c.hasFile);
    CallLeavesExactly(o, file, c);
  }

  // What a losing call hands to the one that resumes its run.
  lemma LosingCallLeaves(o: Options, file: SourceFile, base: map<Key, Row>, c: CacheState, c1: CacheState)
    requires Consistent(file.slots) && CanContinue(o, file, base, c) && !TurnedAway(o, file, c)
    requires LosesRow(o, file, base, c) && c1 == SyncOutcome(o, file, c).cache
    ensures c1.txn.None? && o.target.runId in c1.db.runs
    ensures c1.db.runs[o.target.runId].lastProcessedRow == o.stop.row
    ensures c1.db.records == Imported(o.target, file.slots, base, o.stop.row - 1)
  {
    CallKeepsPromises(o, file, base, c);
  }

  lemma {:induction false} StoredAllHas(t: Target, base: map<Key, Row>, records: seq<Record>, record: Record)
    requires forall i :: 0 <= i < |records| && KeyOf(records[i]) == KeyOf(record) ==> records[i] == record
    ensures var table := StoredAll(t, base, records);
            KeyOf(record) in table && table[KeyOf(record)] == RowOf(t, record)
            <==> record in records || (KeyOf(record) in base && base[KeyOf(record)] == RowOf(t, record))
  {
    if records != [] {
      var last := |records| - 1;
      StoredAllHas(t, base, records[..last], record);
      assert records == records[..last] + [records[last]];
    }
  }

  lemma {:induction false} FreshComesFrom(slots: seq<Slot>, start: nat, n: nat, k: nat) returns (i: nat)
    requires n <= |slots| && k < |FreshRecords(slots, start, n)|
    ensures start <= i < n && slots[i].Good? && slots[i].outcome == Some(FreshRecords(slots, start, n)[k])
  {
    if IsFresh(slots, start, n - 1) && k == |FreshRecords(slots, start, n)| - 1 {
      i := n - 1;
    } else {
      i := FreshComesFrom(slots, start, n - 1, k);
    }
  }

  lemma {:induction false} SeenIsStored(slots: seq<Slot>, start: nat, n: nat, i: nat)
    requires Consistent(slots) && start <= i < n <= |slots| && slots[i].Good? && slots[i].outcome.Some?
    ensures slots[i].outcome.value in FreshRecords(slots, start, n)
  {
    if i < n - 1 {
      SeenIsStored(slots, start, n - 1, i);
    } else if !IsFresh(slots, start, i) {
      var j := SeenIsEarlier(slots, start, i, slots[i].fingerprint);
      SeenIsStored(slots, start, n - 1, j);
    }
  }

  // A later row brings the same content again.
  ghost predicate ComesAgain(slots: seq<Slot>, row: nat)
    requires 0 < row <= |slots| && slots[row - 1].Good?
  {
    exists i :: row <= i < |slots| && slots[i].Good? && slots[i].fingerprint == slots[row - 1].fingerprint
  }

  lemma FreshHas(slots: seq<Slot>, row: nat)
    requires Consistent(slots) && 0 < row <= |slots| && slots[row - 1].Good? && slots[row - 1].outcome.Some?
    ensures var record, records := slots[row - 1].outcome.value, FreshRecords(slots, row, |slots|);
            && (record in records <==> ComesAgain(slots, row))
            && forall k :: 0 <= k < |records| && KeyOf(records[k]) == KeyOf(record) ==> records[k] == record
  {
    var record, records := slots[row - 1].outcome.value, FreshRecords(slots, row, |slots|);
    forall k | 0 <= k < |records| && KeyOf(records[k]) == KeyOf(record)
      ensures records[k] == record && ComesAgain(slots, row)
    {
      var i := FreshComesFrom(slots, row, |slots|, k);
      assert slots[i].fingerprint == slots[row - 1].fingerprint;
    }
    if ComesAgain(slots, row) {
      var i :| row <= i < |slots| && slots[i].Good? && slots[i].fingerprint == slots[row - 1].fingerprint;
      assert slots[i].outcome == slots[row - 1].outcome;
      SeenIsStored(slots, row, |slots|, i);
    }
  }

  // Main result: the resumed run that completes has the record of a lost row exactly when a later row
  // brings it again.
  lemma LostRowIsRecoveredExactly(
    first: Options, second: Options, file: SourceFile, base: map<Key, Row>, c: CacheState, c1: CacheState)
    requires Consistent(file.slots) && CanContinue(first, file, base, c) && !TurnedAway(first, file, c)
    requires LosesRow(first, file, base, c) && c1 == SyncOutcome(first, file, c).cache
    requires second.resume && second.target == first.target
    requires !TurnedAway(second, file, c1) && SyncOutcome(second, file, c1).result.status == StatusCompleted
    ensures var table := SyncOutcome(second, file, c1).cache.db.records;
            var record := file.slots[first.stop.row - 1].outcome.value;
            KeyOf(record) in table && table[KeyOf(record)] == RowOf(first.target, record)
            <==> ComesAgain(file.slots, first.stop.row)
  {
    var row := first.stop.row;
    var record := file.slots[row - 1].outcome.value;
    LosingCallLeaves(first, file, base, c, c1);
    CompletedCallStores(second, file, c1);
    FreshHas(file.slots, row);
    StoredAllHas(first.target, c1.db.records, FreshRecords(file.slots, row, |file.slots|), record);
  }
}
