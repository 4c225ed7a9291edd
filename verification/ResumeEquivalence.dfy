// Interrupting an import, restarting the process and resuming, any number of times and in any
// order, ends with what one uninterrupted call would have left.
module ResumeEquivalence {
  import opened Wrappers
  import opened Records
  import opened SqliteCache
  import opened RegistrySync
  import opened RowOutcomes
  import opened ResumableImport

  datatype Event = Call(o: Options, file: SourceFile) | Restart

  function Next(c: CacheState, e: Event): CacheState {
    match e
    case Call(o, file) => SyncOutcome(o, file, c).cache
    case Restart => Reopened(c)
  }

  function RunEvents(c: CacheState, es: seq<Event>): CacheState
    decreases |es|
  {
    if es == [] then c else RunEvents(Next(c, es[0]), es[1..])
  }

  // A new run is started once, from the right file; a resuming call may name any file, but equal
  // checksums mean equal files.
  predicate Belongs(t: Target, file: SourceFile, c: CacheState, e: Event) {
    match e
    case Restart => c.hasFile
    case Call(o, given) =>
      && o.target == t
      && (if o.resume then given.sha256 == file.sha256 ==> given == file
          else t.runId !in c.db.runs && given == file)
  }

  // No call loses a row.
  ghost predicate Allowed(t: Target, file: SourceFile, base: map<Key, Row>, c: CacheState, e: Event) {
    Belongs(t, file, c, e) && (e.Call? ==> !LosesRow(e.o, file, base, c))
  }

  ghost predicate AllAllowed(t: Target, file: SourceFile, base: map<Key, Row>, c: CacheState, es: seq<Event>)
    decreases |es|
  {
    es == [] || (Allowed(t, file, base, c, es[0]) && AllAllowed(t, file, base, Next(c, es[0]), es[1..]))
  }

  // A chain that reads the file again must find in it what the cache started with.
  ghost predicate CanRestart(t: Target, c: CacheState, es: seq<Event>) {
    Restart in es ==> c.disk.records == c.db.records && t.runId !in c.disk.runs
  }

  // Untouched, or covered by its run row; a completed run has handled the whole file.
  ghost predicate Settled(t: Target, file: SourceFile, base: map<Key, Row>, db: Db) {
    if t.runId !in db.runs then db.records == base
    else match db.runs[t.runId].status
      case Failed => true
      case Completed =>
        && Covered(t, file, base, db) && db.runs[t.runId].lastProcessedRow == LastRow(file.slots, |file.slots|)
        && NothingRefused(file.slots)
      case _ => Covered(t, file, base, db)
  }

  ghost predicate ChainInvariant(t: Target, file: SourceFile, base: map<Key, Row>, c: CacheState, restarts: bool) {
    c.txn.None? && Settled(t, file, base, c.db) && (restarts ==> Settled(t, file, base, c.disk))
  }

  lemma EventKeepsInvariant(t: Target, file: SourceFile, base: map<Key, Row>, c: CacheState, e: Event, restarts: bool)
    requires Consistent(file.slots) && ChainInvariant(t, file, base, c, restarts) && Allowed(t, file, base, c, e)
    requires e.Restart? ==> restarts
    ensures ChainInvariant(t, file, base, Next(c, e), restarts)
  {
    if e.Call? && !TurnedAway(e.o, e.file, c) {
      CallKeepsPromises(e.o, file, base, c);
      var db := Next(c, e).db;
      if t.runId in db.runs && db.runs[t.runId].status == Completed {
        CompletedRunRefusedNothing(e.o, file, c);
      }
    }
  }

  lemma {:induction false} EventsKeepInvariant(
    t: Target, file: SourceFile, base: map<Key, Row>, c: CacheState, es: seq<Event>, restarts: bool)
    requires Consistent(file.slots) && ChainInvariant(t, file, base, c, restarts) && AllAllowed(t, file, base, c, es)
    requires Restart in es ==> restarts
    ensures ChainInvariant(t, file, base, RunEvents(c, es), restarts)
    decreases |es|
  {
    if es != [] {
      EventKeepsInvariant(t, file, base, c, es[0], restarts);
      EventsKeepInvariant(t, file, base, Next(c, es[0]), es[1..], restarts);
    }
  }

  // Every cache reached by calls and restarts: a completed run has exactly the reference table.
  lemma CompletedChainIsFullImport(t: Target, file: SourceFile, c: CacheState, es: seq<Event>)
    requires Consistent(file.slots) && AllAllowed(t, file, c.db.records, c, es)
    requires c.txn.None? && t.runId !in c.db.runs && CanRestart(t, c, es)
    requires var db := RunEvents(c, es).db; t.runId in db.runs && db.runs[t.runId].status == Completed
    ensures var db := RunEvents(c, es).db;
            && db.records == Imported(t, file.slots, c.db.records, |file.slots|)
            && db.runs[t.runId].lastProcessedRow == LastRow(file.slots, |file.slots|)
            && db.runs[t.runId].rawCount == RawRows(file.slots, |file.slots|)
            && NothingRefused(file.slots)
  {
    EventsKeepInvariant(t, file, c.db.records, c, es, Restart in es);
    LastRowStandsForRows(t, file.slots, c.db.records, |file.slots|);
  }

  // Main theorem: any chain of calls and restarts that completes equals the one undisturbed call.
  lemma InterruptAndResumeEqualsOneCall(o: Options, file: SourceFile, c: CacheState, es: seq<Event>)
    requires Consistent(file.slots) && AllAllowed(o.target, file, c.db.records, c, es)
    requires c.txn.None? && o.target.runId !in c.db.runs && CanRestart(o.target, c, es)
    requires !o.resume && o.stop == Never && o.checkpointInterval >= 1
    requires Accepted(o.strict, file.slots, |file.slots|, 0)
    requires var db := RunEvents(c, es).db;
             o.target.runId in db.runs && db.runs[o.target.runId].status == Completed
    ensures var chained, once := RunEvents(c, es).db, SyncOutcome(o, file, c).cache.db;
            && o.target.runId in once.runs && once.runs[o.target.runId].status == Completed
            && chained.records == once.records
            && chained.runs[o.target.runId].lastProcessedRow == once.runs[o.target.runId].lastProcessedRow
            && chained.runs[o.target.runId].rawCount == once.runs[o.target.runId].rawCount
  {
    CompletedChainIsFullImport(o.target, file, c, es);
    CallCompletesExactly(o, file, c);
    var single := [Call(o, file)];
    assert single[1..] == [];
    assert RunEvents(c, single) == SyncOutcome(o, file, c).cache;
    CompletedChainIsFullImport(o.target, file, c, single);
  }

  // ----- where the equality ends: three small files, for every target and record -----

  function CallOptions(t: Target, resume: bool, strict: bool, stop: Stop, aborted: bool): Options {
    Options(t, resume, true, strict, 1, stop, aborted, false)
  }

  function EmptyCache(): CacheState {
    CacheState(Db(map[], map[]), None, false, false, Db(map[], map[]))
  }

  function OneRow(sha256: string, slot: Slot): SourceFile {
    SourceFile(sha256, [slot])
  }

  // The cache after the first row's exception met an abort: no data, but the row counts as processed.
  function InterruptedAtRowOne(t: Target, sha256: string, normalizedCount: nat, errorCount: nat): CacheState {
    EmptyCache().(
      db := Db(map[], map[t.runId := Run(t.sourceId, sha256, Interrupted, 1, 1, normalizedCount, 0, 0, errorCount)]),
      dirty := true)
  }

  lemma OneRowCall(o: Options, file: SourceFile, c: CacheState)
    requires |file.slots| == 1 && c.txn.None? && !TurnedAway(o, file, c) && o.stop != Stop(2, BeforeRow)
    ensures var s := BegunState(o, file, c);
            SyncOutcome(o, file, c) == Conclude(o, 2, RowStep(o, 1, file.slots[0], s.lastProcessedRow, s))
  {
    var s := BegunState(o, file, c);
    var r := RowStep(o, 1, file.slots[0], s.lastProcessedRow, s);
    if !r.thrown {
      assert Loop(o, file.slots, 1, s.lastProcessedRow, r.s) == Step(false, r.s);
    }
  }

  lemma FailingImportInterrupts(t: Target, sha256: string, record: Record)
    ensures var o := CallOptions(t, false, false, Stop(1, AtImport), true);
            SyncOutcome(o, OneRow(sha256, Good(record.fingerprint, 0, Some(record))), EmptyCache()).cache
            == InterruptedAtRowOne(t, sha256, 1, 1)
  {
    var o := CallOptions(t, false, false, Stop(1, AtImport), true);
    var file := OneRow(sha256, Good(record.fingerprint, 0, Some(record)));
    OneRowCall(o, file, EmptyCache());
    assert SyncOutcome(o, file, EmptyCache()).cache.db.runs == InterruptedAtRowOne(t, sha256, 1, 1).db.runs;
  }

  lemma FailingRowInterrupts(t: Target, sha256: string, fingerprint: string)
    ensures var o := CallOptions(t, false, true, Never, true);
            SyncOutcome(o, OneRow(sha256, Good(fingerprint, 0, None)), EmptyCache()).cache
            == InterruptedAtRowOne(t, sha256, 0, 2)
  {
    var o := CallOptions(t, false, true, Never, true);
    var file := OneRow(sha256, Good(fingerprint, 0, None));
    OneRowCall(o, file, EmptyCache());
    assert SyncOutcome(o, file, EmptyCache()).cache.db.runs == InterruptedAtRowOne(t, sha256, 0, 2).db.runs;
  }

  // A resumed call passes over the rows its run already counts.
  lemma ResumedCallSkipsRowOne(o: Options, file: SourceFile, c: CacheState)
    requires |file.slots| == 1 && file.slots[0].Good? && c.txn.None? && o.resume && o.stop == Never
    requires !TurnedAway(o, file, c) && c.db.runs[o.target.runId].lastProcessedRow == 1
    ensures SyncOutcome(o, file, c).result.status == StatusCompleted
    ensures SyncOutcome(o, file, c).cache.db.records == c.db.records
  {
    OneRowCall(o, file, c);
  }

  lemma OneCallStoresRowOne(o: Options, sha256: string, record: Record)
    requires !o.resume && o.stop == Never && o.checkpointInterval >= 1
    ensures var once := SyncOutcome(o, OneRow(sha256, Good(record.fingerprint, 0, Some(record))), EmptyCache());
            once.result.status == StatusCompleted && KeyOf(record) in once.cache.db.records
  {
    var file := OneRow(sha256, Good(record.fingerprint, 0, Some(record)));
    CallCompletesExactly(o, file, EmptyCache());
    CallKeepsPromises(o, file, map[], EmptyCache());
    LastRowStandsForRows(o.target, file.slots, map[], 1);
    ImportedHas(o.target, file.slots, map[], 1, 0);
  }

  // An abort that coincides with a failing importRecord loses the record for good: the resumed run
  // completes without it, while one undisturbed call stores it.
  lemma AbortDuringImportLosesRecord(t: Target, sha256: string, record: Record)
    ensures var file, key := OneRow(sha256, Good(record.fingerprint, 0, Some(record))), KeyOf(record);
            var interrupted := SyncOutcome(CallOptions(t, false, false, Stop(1, AtImport), true), file,
                                           EmptyCache()).cache;
            var resumed := SyncOutcome(CallOptions(t, true, false, Never, false), file, interrupted);
            var once := SyncOutcome(CallOptions(t, false, false, Never, false), file, EmptyCache());
            && resumed.result.status == StatusCompleted && key !in resumed.cache.db.records
            && once.result.status == StatusCompleted && key in once.cache.db.records
  {
    var file := OneRow(sha256, Good(record.fingerprint, 0, Some(record)));
    FailingImportInterrupts(t, sha256, record);
    ResumedCallSkipsRowOne(CallOptions(t, true, false, Never, false), file, InterruptedAtRowOne(t, sha256, 1, 1));
    OneCallStoresRowOne(CallOptions(t, false, false, Never, false), sha256, record);
  }

  // In strict mode an abort that coincides with a row's exception lets the resumed run skip the row.
  lemma StrictResumeSkipsFailedRow(t: Target, sha256: string, fingerprint: string)
    ensures var file := OneRow(sha256, Good(fingerprint, 0, None));
            var interrupted := SyncOutcome(CallOptions(t, false, true, Never, true), file, EmptyCache()).cache;
            && SyncOutcome(CallOptions(t, true, true, Never, false), file, interrupted).result.status == StatusCompleted
            && SyncOutcome(CallOptions(t, false, true, Never, false), file, EmptyCache()).result.status
               != StatusCompleted
  {
    var file := OneRow(sha256, Good(fingerprint, 0, None));
    FailingRowInterrupts(t, sha256, fingerprint);
    ResumedCallSkipsRowOne(CallOptions(t, true, true, Never, false), file, InterruptedAtRowOne(t, sha256, 0, 2));
    CallCompletesExactly(CallOptions(t, false, true, Never, false), file, EmptyCache());
    assert !RowAccepted(true, file.slots, 0, 0);
  }

  // The remembered fingerprints do not survive a resume: a repeated row counts as normalized again.
  lemma ResumeRecountsDuplicates(t: Target, sha256: string, record: Record)
    ensures var good := Good(record.fingerprint, 0, Some(record));
            var file := SourceFile(sha256, [good, good]);
            var interrupted := SyncOutcome(CallOptions(t, false, false, Stop(2, BeforeRow), true), file,
                                           EmptyCache()).cache;
            var resumed := SyncOutcome(CallOptions(t, true, false, Never, false), file, interrupted).result.stats;
            var once := SyncOutcome(CallOptions(t, false, false, Never, false), file, EmptyCache()).result.stats;
            && resumed.normalizedCount == 2 && resumed.duplicateCount == 0
            && once.normalizedCount == 1 && once.duplicateCount == 1
  {
    var good := Good(record.fingerprint, 0, Some(record));
    var file := SourceFile(sha256, [good, good]);
    var o1 := CallOptions(t, false, false, Stop(2, BeforeRow), true);
    var a1 := BegunState(o1, file, EmptyCache());
    var b1 := RowStep(o1, 1, good, 0, a1);
    assert Loop(o1, file.slots, 0, 0, a1) == Loop(o1, file.slots, 1, 0, b1.s) == Step(true, b1.s);
    var interrupted := SyncOutcome(o1, file, EmptyCache()).cache;
    var o2 := CallOptions(t, true, false, Never, false);
    var a2 := BegunState(o2, file, interrupted);
    assert RowStep(o2, 1, good, 1, a2) == Step(false, a2);
    var b2 := RowStep(o2, 2, good, 1, a2);
    assert Loop(o2, file.slots, 0, 1, a2) == Loop(o2, file.slots, 1, 1, a2) == Loop(o2, file.slots, 2, 1, b2.s);
    var o3 := CallOptions(t, false, false, Never, false);
    var a3 := BegunState(o3, file, EmptyCache());
    var b3 := RowStep(o3, 1, good, 0, a3);
    var c3 := RowStep(o3, 2, good, 0, b3.s);
    assert Loop(o3, file.slots, 0, 0, a3) == Loop(o3, file.slots, 1, 0, b3.s) == Loop(o3, file.slots, 2, 0, c3.s);
  }
}
