// Chains of calls and restarts in which each interruption may recount, pass over or lose a row: what
// the completed run has, told by the rows at which it was resumed and the rows it lost.
module ResumedChains {
  import opened Wrappers
  import opened Records
  import opened SqliteCache
  import opened RegistrySync
  import opened RowOutcomes
  import opened CallOutcomes
  import opened ResumableImport
  import opened ResumeEquivalence
  import opened ResumedRuns

  // ----- the trace of a chain -----

  // Of the run in a database: the rows it was resumed at, and the rows that were noted but not stored.
  datatype Trace = Trace(marks: seq<nat>, lost: set<nat>)

  datatype Traces = Traces(mem: Trace, disk: Trace)

  // The row whose record an abort during importRecord leaves out.
  function LostRows(o: Options, slots: seq<Slot>, start: nat, hasFile: bool): set<nat> {
    var n := FirstThrow(o, slots, start, hasFile, 0);
    if o.resumable && o.aborted && HitWhileStoring(o, slots, n, start, hasFile) && o.stop.at.AtImport? then {n} else {}
  }

  function CallTrace(o: Options, file: SourceFile, c: CacheState, before: Trace): Trace {
    var start := StartRow(o, c);
    var lost := LostRows(o, file.slots, start, c.hasFile);
    if o.resume then Trace(before.marks + [start], before.lost + lost) else Trace([], {} + lost)
  }

  // A saved image is traced like the memory it was saved from.
  function NextTraces(c: CacheState, e: Event, tr: Traces): Traces {
    match e
    case Restart => Traces(tr.disk, tr.disk)
    case Call(o, file) =>
      if TurnedAway(o, file, c) then tr
      else
        var mem := CallTrace(o, file, c, tr.mem);
        Traces(mem, if Next(c, e).disk == c.disk then tr.disk else mem)
  }

  function TraceEvents(c: CacheState, es: seq<Event>, tr: Traces): Traces
    decreases |es|
  {
    if es == [] then tr else TraceEvents(Next(c, es[0]), es[1..], NextTraces(c, es[0], tr))
  }

  function TraceOf(c: CacheState, es: seq<Event>): Trace {
    var nothing := Trace([], {});
    TraceEvents(c, es, Traces(nothing, nothing)).mem
  }

  ghost predicate AllBelong(t: Target, file: SourceFile, c: CacheState, es: seq<Event>)
    decreases |es|
  {
    es == [] || (Belongs(t, file, c, es[0]) && AllBelong(t, file, Next(c, es[0]), es[1..]))
  }

  // ----- what a trace stands for -----

  predicate Ascending(marks: seq<nat>, end: nat) {
    marks == [] || (marks[|marks| - 1] <= end && Ascending(marks[..|marks| - 1], marks[|marks| - 1]))
  }

  // Each stretch between two resumptions counts its fresh records anew.
  function Tally(slots: seq<Slot>, marks: seq<nat>, end: nat): nat
    requires end <= |slots| && Ascending(marks, end)
  {
    if marks == [] then |FreshRecords(slots, 0, end)|
    else
      var last := marks[|marks| - 1];
      Tally(slots, marks[..|marks| - 1], last) + |FreshRecords(slots, last, end)|
  }

  // The reference import without the lost rows.
  function ImportedBut(t: Target, slots: seq<Slot>, base: map<Key, Row>, n: nat, lost: set<nat>): map<Key, Row>
    requires n <= |slots|
  {
    if n == 0 then base
    else
      var before := ImportedBut(t, slots, base, n - 1, lost);
      match slots[n - 1]
      case Good(_, _, Some(record)) => if n - 1 in lost then before else before[KeyOf(record) := RowOf(t, record)]
      case _ => before
  }

  // Every row before the k-th that is not the last one before a resumption is acceptable.
  ghost predicate AcceptedBut(slots: seq<Slot>, marks: seq<nat>, k: int)
    requires k <= |slots|
  {
    forall i :: 0 <= i < k && i + 1 !in marks ==> RowAccepted(true, slots, i, 0)
  }

  // How far the run's data reaches.
  function EndOf(slots: seq<Slot>, run: Run): nat {
    if run.status == Completed then |slots| else run.lastProcessedRow
  }

  ghost predicate Explains(
    t: Target, slots: seq<Slot>, base: map<Key, Row>, strict: bool, run: Run, table: map<Key, Row>, tr: Trace)
  {
    var end := EndOf(slots, run);
    && run.lastProcessedRow <= |slots| && LastRow(slots, run.lastProcessedRow) == run.lastProcessedRow
    && Ascending(tr.marks, end) && run.normalizedCount == Tally(slots, tr.marks, end)
    && (forall row :: row in tr.lost ==> row < end)
    && (Consistent(slots) ==> table == ImportedBut(t, slots, base, end, tr.lost))
    && (strict ==> AcceptedBut(slots, tr.marks, if run.status == Completed then end else end - 1))
  }

  // Untouched, or explained by its trace unless the run is under way or failed.
  ghost predicate Explained(
    t: Target, file: SourceFile, base: map<Key, Row>, strict: bool, db: Db, tr: Trace)
  {
    if t.runId !in db.runs then db.records == base
    else
      var run := db.runs[t.runId];
      run.status in {Interrupted, Completed} ==>
        run.sha256 == file.sha256 && Explains(t, file.slots, base, strict, run, db.records, tr)
  }

  // ----- rows that nothing is made of -----

  lemma {:induction false} LastRowGrows(slots: seq<Slot>, m: nat, n: nat)
    requires m <= n <= |slots|
    ensures LastRow(slots, m) <= LastRow(slots, n)
  {
    if m < n {
      LastRowGrows(slots, m, n - 1);
    }
  }

  lemma {:induction false} LastRowStands(
    t: Target, slots: seq<Slot>, base: map<Key, Row>, lost: set<nat>, start: nat, n: nat)
    requires n <= |slots| && start <= LastRow(slots, n)
    ensures LastRow(slots, LastRow(slots, n)) == LastRow(slots, n)
    ensures FreshRecords(slots, start, LastRow(slots, n)) == FreshRecords(slots, start, n)
    ensures ImportedBut(t, slots, base, LastRow(slots, n), lost) == ImportedBut(t, slots, base, n, lost)
  {
    if n > 0 && LastRow(slots, n) < n {
      LastRowStands(t, slots, base, lost, start, n - 1);
    }
  }

  // ----- the table -----

  lemma {:induction false} LaterLossesDoNotMatter(
    t: Target, slots: seq<Slot>, base: map<Key, Row>, n: nat, lost: set<nat>, more: set<nat>)
    requires n <= |slots| && forall row :: row in more ==> row >= n
    ensures ImportedBut(t, slots, base, n, lost + more) == ImportedBut(t, slots, base, n, lost)
  {
    if n > 0 {
      LaterLossesDoNotMatter(t, slots, base, n - 1, lost, more);
    }
  }

  // Some row that is not lost brings what row i brings.
  ghost predicate BroughtBut(slots: seq<Slot>, n: nat, lost: set<nat>, i: nat)
    requires n <= |slots| && i < |slots| && slots[i].Good?
  {
    exists j :: 0 <= j < n && j !in lost && slots[j].Good? && slots[j].fingerprint == slots[i].fingerprint
  }

  ghost predicate HasRow(t: Target, table: map<Key, Row>, record: Record) {
    KeyOf(record) in table && table[KeyOf(record)] == RowOf(t, record)
  }

  lemma {:induction false} ImportedButHas(
    t: Target, slots: seq<Slot>, base: map<Key, Row>, n: nat, lost: set<nat>, i: nat)
    requires n <= |slots| && Consistent(slots) && i < |slots| && slots[i].Good? && slots[i].outcome.Some?
    ensures HasRow(t, ImportedBut(t, slots, base, n, lost), slots[i].outcome.value)
            <==> HasRow(t, base, slots[i].outcome.value) || BroughtBut(slots, n, lost, i)
  {
    if n > 0 {
      ImportedButHas(t, slots, base, n - 1, lost, i);
      var last := slots[n - 1];
      assert BroughtBut(slots, n, lost, i)
             <==> BroughtBut(slots, n - 1, lost, i)
                  || (n - 1 !in lost && last.Good? && last.fingerprint == slots[i].fingerprint);
    }
  }

  // Storing the fresh records of rows start + 1 to n amounts to importing these rows.
  lemma {:induction false} StoringIsImporting(
    t: Target, slots: seq<Slot>, base: map<Key, Row>, start: nat, n: nat, lost: set<nat>)
    requires start <= n <= |slots| && Consistent(slots) && forall row :: row in lost ==> row < start
    ensures StoredAll(t, ImportedBut(t, slots, base, start, lost), FreshRecords(slots, start, n))
            == ImportedBut(t, slots, base, n, lost)
  {
    if n > start {
      StoringIsImporting(t, slots, base, start, n - 1, lost);
      if slots[n - 1].Good? && slots[n - 1].outcome.Some? {
        OneMoreStored(t, slots, base, start, n, lost);
      }
    }
  }

  lemma OneMoreStored(t: Target, slots: seq<Slot>, base: map<Key, Row>, start: nat, n: nat, lost: set<nat>)
    requires start < n <= |slots| && Consistent(slots) && forall row :: row in lost ==> row < start
    requires slots[n - 1].Good? && slots[n - 1].outcome.Some?
    requires StoredAll(t, ImportedBut(t, slots, base, start, lost), FreshRecords(slots, start, n - 1))
             == ImportedBut(t, slots, base, n - 1, lost)
    ensures StoredAll(t, ImportedBut(t, slots, base, start, lost), FreshRecords(slots, start, n))
            == ImportedBut(t, slots, base, n, lost)
  {
    var before, record := ImportedBut(t, slots, base, n - 1, lost), slots[n - 1].outcome.value;
    if IsFresh(slots, start, n - 1) {
      var records := FreshRecords(slots, start, n - 1);
      assert (records + [record])[..|records|] == records;
    } else {
      var j := SeenIsEarlier(slots, start, n - 1, slots[n - 1].fingerprint);
      ImportedButHas(t, slots, base, n - 1, lost, n - 1);
      assert BroughtBut(slots, n - 1, lost, n - 1);
      assert before[KeyOf(record) := before[KeyOf(record)]] == before;
    }
  }

  // ----- one call -----

  // Where the data of a call's run ends that read so many rows.
  predicate EndsAt(slots: seq<Slot>, start: nat, read: nat, completed: bool, end: nat) {
    && start <= read <= |slots| && LastRow(slots, start) == start
    && if completed then end == read == |slots| else end == Max(start, LastRow(slots, read))
  }

  lemma EndStands(
    t: Target, slots: seq<Slot>, base: map<Key, Row>, lost: set<nat>, start: nat, read: nat, completed: bool, end: nat)
    requires EndsAt(slots, start, read, completed, end)
    ensures start <= end <= |slots|
    ensures LastRow(slots, LastRow(slots, read)) == LastRow(slots, read) && start <= LastRow(slots, read)
    ensures FreshRecords(slots, start, end) == FreshRecords(slots, start, read)
    ensures ImportedBut(t, slots, base, end, lost) == ImportedBut(t, slots, base, read, lost)
  {
    LastRowGrows(slots, start, read);
    LastRowStands(t, slots, base, lost, start, read);
  }

  // The call's loop got through, or the catch block commits what was written.
  predicate KeepsWritten(o: Options, slots: seq<Slot>, start: nat, hasFile: bool) {
    || (FirstThrow(o, slots, start, hasFile, 0) == |slots| && o.stop != Stop(|slots| + 1, BeforeRow))
    || (o.resumable && o.aborted)
  }

  lemma LostBeforeEnd(o: Options, slots: seq<Slot>, start: nat, hasFile: bool, completed: bool, end: nat)
    requires start <= |slots| && EndsAt(slots, start, RowsRead(o, slots, start, hasFile), completed, end)
    ensures start <= end <= |slots| && forall row :: row in LostRows(o, slots, start, hasFile) ==> row < end
  {
    LastRowGrows(slots, start, RowsRead(o, slots, start, hasFile));
    var n := FirstThrow(o, slots, start, hasFile, 0);
    if LostRows(o, slots, start, hasFile) != {} {
      assert RowsRead(o, slots, start, hasFile) == n + 1 == LastRow(slots, n + 1);
    }
  }

  // A lost row is the last one read, and was not written.
  lemma LostRowIsLast(o: Options, slots: seq<Slot>, start: nat, hasFile: bool, completed: bool, end: nat)
    requires start <= |slots| && o.checkpointInterval >= 1 && KeepsWritten(o, slots, start, hasFile)
    requires EndsAt(slots, start, RowsRead(o, slots, start, hasFile), completed, end)
    ensures var n, lost := FirstThrow(o, slots, start, hasFile, 0), LostRows(o, slots, start, hasFile);
            if lost == {} then
              KeptRecords(o, slots, start, hasFile)
              == FreshRecords(slots, start, RowsRead(o, slots, start, hasFile))
            else
              && lost == {n} && start <= n && n + 1 == end <= |slots|
              && KeptRecords(o, slots, start, hasFile) == FreshRecords(slots, start, n)
  {
    LostBeforeEnd(o, slots, start, hasFile, completed, end);
  }

  lemma TableAfterLoss(t: Target, slots: seq<Slot>, base: map<Key, Row>, start: nat, n: nat, lost: set<nat>)
    requires Consistent(slots) && start <= n < |slots| && forall row :: row in lost ==> row < start
    ensures StoredAll(t, ImportedBut(t, slots, base, start, lost), FreshRecords(slots, start, n))
            == ImportedBut(t, slots, base, n + 1, lost + {n})
  {
    StoringIsImporting(t, slots, base, start, n, lost);
    LaterLossesDoNotMatter(t, slots, base, n, lost, {n});
  }

  lemma TableAfterCall(
    o: Options, slots: seq<Slot>, base: map<Key, Row>, start: nat, hasFile: bool, lost: set<nat>, completed: bool,
    end: nat)
    requires Consistent(slots) && start <= |slots| && o.checkpointInterval >= 1
    requires KeepsWritten(o, slots, start, hasFile) && forall row :: row in lost ==> row < start
    requires EndsAt(slots, start, RowsRead(o, slots, start, hasFile), completed, end)
    ensures end <= |slots|
    ensures StoredAll(o.target, ImportedBut(o.target, slots, base, start, lost), KeptRecords(o, slots, start, hasFile))
            == ImportedBut(o.target, slots, base, end, lost + LostRows(o, slots, start, hasFile))
  {
    LostRowIsLast(o, slots, start, hasFile, completed, end);
    var more := LostRows(o, slots, start, hasFile);
    if more == {} {
      var read := RowsRead(o, slots, start, hasFile);
      EndStands(o.target, slots, base, lost, start, read, completed, end);
      StoringIsImporting(o.target, slots, base, start, read, lost);
      assert lost + more == lost;
    } else {
      TableAfterLoss(o.target, slots, base, start, end - 1, lost);
    }
  }

  // A row that a resumed run accepts is acceptable to one call.
  lemma AcceptedFromStart(slots: seq<Slot>, start: nat, i: nat)
    requires start <= i < |slots| && RowAccepted(true, slots, i, start)
    ensures RowAccepted(true, slots, i, 0)
  {
    SeenSplits(slots, start, i);
  }

  lemma RowsAfterCall(
    o: Options, slots: seq<Slot>, marks: seq<nat>, more: seq<nat>, start: nat, hasFile: bool, k: nat)
    requires o.strict && k <= |slots| && start <= |slots|
    requires forall i :: start <= i < k ==> !RowThrows(o, slots, i, start, hasFile)
    requires AcceptedBut(slots, marks, start - 1)
    requires forall row :: row in marks || (start > 0 && row == start) ==> row in more
    ensures AcceptedBut(slots, more, k)
  {
    forall i | 0 <= i < k && i + 1 !in more ensures RowAccepted(true, slots, i, 0) {
      if i >= start {
        assert !RowThrows(o, slots, i, start, hasFile);
        AcceptedFromStart(slots, start, i);
      }
    }
  }

  lemma TallyAfterCall(slots: seq<Slot>, marks: seq<nat>, start: nat, end: nat)
    requires start <= end <= |slots| && Ascending(marks, start)
    ensures Ascending(marks + [start], end)
    ensures Tally(slots, marks + [start], end) == Tally(slots, marks, start) + |FreshRecords(slots, start, end)|
  {
    assert (marks + [start])[..|marks|] == marks;
  }

  // The run from which a call starts, with the trace it starts from.
  ghost predicate StartsFrom(
    o: Options, file: SourceFile, base: map<Key, Row>, strict: bool, c: CacheState, before: Trace)
  {
    && c.txn.None? && !TurnedAway(o, file, c) && (strict ==> o.strict)
    && if o.resume then Explains(o.target, file.slots, base, strict, c.db.runs[o.target.runId], c.db.records, before)
       else c.db.records == base
  }

  lemma StartStands(o: Options, file: SourceFile, base: map<Key, Row>, strict: bool, c: CacheState, before: Trace)
    requires StartsFrom(o, file, base, strict, c, before)
    ensures var start, lost := StartRow(o, c), if o.resume then before.lost else {};
            && start <= |file.slots| && LastRow(file.slots, start) == start
            && (forall row :: row in lost ==> row < start)
            && (Consistent(file.slots) ==>
                  c.db.records == ImportedBut(o.target, file.slots, base, start, lost))
  {
  }

  // The end of the data of a call that completes or is interrupted.
  lemma EndAfterCall(o: Options, file: SourceFile, c: CacheState)
    requires c.txn.None? && !TurnedAway(o, file, c) && StartRow(o, c) <= |file.slots|
    requires LastRow(file.slots, StartRow(o, c)) == StartRow(o, c)
    requires SyncOutcome(o, file, c).result.status == StatusCompleted || (o.resumable && o.aborted)
    ensures KeepsWritten(o, file.slots, StartRow(o, c), c.hasFile)
    ensures var out, start := SyncOutcome(o, file, c), StartRow(o, c);
            && o.target.runId in out.cache.db.runs
            && var run, read := out.cache.db.runs[o.target.runId], RowsRead(o, file.slots, start, c.hasFile);
               && run.sha256 == file.sha256 && run.status == EndStatus(o, out)
               && run.lastProcessedRow == Max(start, LastRow(file.slots, read))
               && EndsAt(file.slots, start, read, run.status == Completed, EndOf(file.slots, run))
               && run.normalizedCount
                  == InitialState(o, file, c).stats.normalizedCount + |FreshRecords(file.slots, start, read)|
               && out.cache.db.records
                  == StoredAll(o.target, c.db.records, KeptRecords(o, file.slots, start, c.hasFile))
  {
    CallLeavesExactly(o, file, c);
    CallLeavesRun(o, file, c);
    CallCompletesExactly(o, file, c);
    FirstThrowTellsEnd(o, file.slots, StartRow(o, c), c.hasFile);
  }

  lemma CountAfterCall(
    o: Options, file: SourceFile, base: map<Key, Row>, strict: bool, c: CacheState, before: Trace, end: nat)
    requires StartsFrom(o, file, base, strict, c, before) && StartRow(o, c) <= end <= |file.slots|
    ensures var marks := CallTrace(o, file, c, before).marks;
            && Ascending(marks, end)
            && Tally(file.slots, marks, end)
               == InitialState(o, file, c).stats.normalizedCount + |FreshRecords(file.slots, StartRow(o, c), end)|
  {
    if o.resume {
      TallyAfterCall(file.slots, before.marks, StartRow(o, c), end);
    }
  }

  lemma AcceptedAfterCall(o: Options, file: SourceFile, base: map<Key, Row>, c: CacheState, before: Trace)
    requires StartsFrom(o, file, base, true, c, before)
    requires SyncOutcome(o, file, c).result.status == StatusCompleted || (o.resumable && o.aborted)
    ensures var db, marks := SyncOutcome(o, file, c).cache.db, CallTrace(o, file, c, before).marks;
            && o.target.runId in db.runs
            && var run := db.runs[o.target.runId];
               && run.lastProcessedRow <= |file.slots|
               && AcceptedBut(file.slots, marks, if run.status == Completed then |file.slots|
                                                 else run.lastProcessedRow - 1)
  {
    var start, slots := StartRow(o, c), file.slots;
    StartStands(o, file, base, true, c, before);
    EndAfterCall(o, file, c);
    CallCompletesExactly(o, file, c);
    var run := SyncOutcome(o, file, c).cache.db.runs[o.target.runId];
    var k := if run.status == Completed then |slots| else if run.lastProcessedRow == 0 then 0
             else run.lastProcessedRow - 1;
    forall i | start <= i < k ensures !RowThrows(o, slots, i, start, c.hasFile) {
      if run.status != Completed {
        NotedRowIsReached(o, file, c, i);
      }
    }
    RowsAfterCall(o, slots, if o.resume then before.marks else [], CallTrace(o, file, c, before).marks, start,
                  c.hasFile, k);
  }

  lemma LossesAfterCall(
    o: Options, file: SourceFile, base: map<Key, Row>, strict: bool, c: CacheState, before: Trace, completed: bool,
    end: nat)
    requires StartsFrom(o, file, base, strict, c, before) && StartRow(o, c) <= |file.slots|
    requires KeepsWritten(o, file.slots, StartRow(o, c), c.hasFile)
    requires EndsAt(file.slots, StartRow(o, c), RowsRead(o, file.slots, StartRow(o, c), c.hasFile), completed, end)
    ensures end <= |file.slots|
    ensures forall row :: row in CallTrace(o, file, c, before).lost ==> row < end
    ensures Consistent(file.slots) ==>
              StoredAll(o.target, c.db.records, KeptRecords(o, file.slots, StartRow(o, c), c.hasFile))
              == ImportedBut(o.target, file.slots, base, end, CallTrace(o, file, c, before).lost)
  {
    var start, lost := StartRow(o, c), if o.resume then before.lost else {};
    StartStands(o, file, base, strict, c, before);
    LostBeforeEnd(o, file.slots, start, c.hasFile, completed, end);
    if Consistent(file.slots) {
      TableAfterCall(o, file.slots, base, start, c.hasFile, lost, completed, end);
    }
  }

  lemma CompletedOrInterrupted(
    o: Options, file: SourceFile, base: map<Key, Row>, strict: bool, c: CacheState, before: Trace)
    requires StartsFrom(o, file, base, strict, c, before)
    requires SyncOutcome(o, file, c).result.status == StatusCompleted || (o.resumable && o.aborted)
    ensures var db := SyncOutcome(o, file, c).cache.db;
            && o.target.runId in db.runs && db.runs[o.target.runId].sha256 == file.sha256
            && Explains(o.target, file.slots, base, strict, db.runs[o.target.runId], db.records,
                        CallTrace(o, file, c, before))
  {
    StartStands(o, file, base, strict, c, before);
    EndAfterCall(o, file, c);
    var run := SyncOutcome(o, file, c).cache.db.runs[o.target.runId];
    var start, end := StartRow(o, c), EndOf(file.slots, run);
    EndStands(o.target, file.slots, base, {}, start, RowsRead(o, file.slots, start, c.hasFile),
              run.status == Completed, end);
    CountAfterCall(o, file, base, strict, c, before, end);
    LossesAfterCall(o, file, base, strict, c, before, run.status == Completed, end);
    if strict {
      AcceptedAfterCall(o, file, base, c, before);
    }
  }

  lemma CallIsExplained(o: Options, file: SourceFile, base: map<Key, Row>, strict: bool, c: CacheState, before: Trace)
    requires StartsFrom(o, file, base, strict, c, before)
    ensures Explained(o.target, file, base, strict, SyncOutcome(o, file, c).cache.db, CallTrace(o, file, c, before))
  {
    CallLeavesRun(o, file, c);
    if SyncOutcome(o, file, c).result.status == StatusCompleted || (o.resumable && o.aborted) {
      CompletedOrInterrupted(o, file, base, strict, c, before);
    }
  }

  // ----- chains -----

  ghost predicate AllStrict(es: seq<Event>) {
    forall e :: e in es && e.Call? ==> e.o.strict
  }

  ghost predicate ChainExplained(
    t: Target, file: SourceFile, base: map<Key, Row>, strict: bool, restarts: bool, c: CacheState, tr: Traces)
  {
    && c.txn.None? && Explained(t, file, base, strict, c.db, tr.mem)
    && (restarts ==> Explained(t, file, base, strict, c.disk, tr.disk))
  }

  lemma EventKeepsExplanation(
    t: Target, file: SourceFile, base: map<Key, Row>, strict: bool, restarts: bool, c: CacheState, tr: Traces,
    e: Event)
    requires ChainExplained(t, file, base, strict, restarts, c, tr) && Belongs(t, file, c, e)
    requires (strict && e.Call? ==> e.o.strict) && (e.Restart? ==> restarts)
    ensures ChainExplained(t, file, base, strict, restarts, Next(c, e), NextTraces(c, e, tr))
  {
    if e.Call? && !TurnedAway(e.o, e.file, c) {
      assert e.file == file;
      CallIsExplained(e.o, file, base, strict, c, tr.mem);
      CallLeavesRun(e.o, file, c);
    }
  }

  lemma {:induction false} EventsKeepExplanation(
    t: Target, file: SourceFile, base: map<Key, Row>, strict: bool, restarts: bool, c: CacheState, tr: Traces,
    es: seq<Event>)
    requires ChainExplained(t, file, base, strict, restarts, c, tr) && AllBelong(t, file, c, es)
    requires (strict ==> AllStrict(es)) && (Restart in es ==> restarts)
    ensures Explained(t, file, base, strict, RunEvents(c, es).db, TraceEvents(c, es, tr).mem)
    decreases |es|
  {
    if es != [] {
      EventKeepsExplanation(t, file, base, strict, restarts, c, tr, es[0]);
      assert strict ==> AllStrict(es[1..]);
      EventsKeepExplanation(t, file, base, strict, restarts, Next(c, es[0]), NextTraces(c, es[0], tr), es[1..]);
    }
  }

  // A chain on one cache, without a run of its id yet, that has come to completion.
  ghost predicate CompletedChain(t: Target, file: SourceFile, c: CacheState, es: seq<Event>) {
    && AllBelong(t, file, c, es) && c.txn.None? && t.runId !in c.db.runs && CanRestart(t, c, es)
    && var db := RunEvents(c, es).db; t.runId in db.runs && db.runs[t.runId].status == Completed
  }

  lemma CompletedChainIsExplained(t: Target, file: SourceFile, c: CacheState, es: seq<Event>, strict: bool)
    requires CompletedChain(t, file, c, es) && (strict ==> AllStrict(es))
    ensures var db := RunEvents(c, es).db;
            Explains(t, file.slots, c.db.records, strict, db.runs[t.runId], db.records, TraceOf(c, es))
  {
    var nothing := Trace([], {});
    EventsKeepExplanation(t, file, c.db.records, strict, Restart in es, c, Traces(nothing, nothing), es);
  }

  // ----- repeated rows -----

  // No stretch between two resumptions repeats what came before it.
  ghost predicate NothingRepeated(slots: seq<Slot>, marks: seq<nat>, end: nat)
    requires end <= |slots| && Ascending(marks, end)
  {
    marks == []
    || (!RepeatsBetween(slots, marks[|marks| - 1], end)
        && NothingRepeated(slots, marks[..|marks| - 1], marks[|marks| - 1]))
  }

  lemma {:induction false} TallyIsExact(slots: seq<Slot>, marks: seq<nat>, end: nat)
    requires end <= |slots| && Ascending(marks, end)
    ensures Tally(slots, marks, end) >= |FreshRecords(slots, 0, end)|
    ensures Tally(slots, marks, end) == |FreshRecords(slots, 0, end)| <==> NothingRepeated(slots, marks, end)
  {
    if marks != [] {
      var k := marks[|marks| - 1];
      TallyIsExact(slots, marks[..|marks| - 1], k);
      FreshSplits(slots, k, end);
    }
  }

  // Main result: a completed chain counts at least as many records as one call, and equally many exactly
  // when nothing behind a resumption repeats a fingerprint from before it.
  lemma ChainCountsExactly(t: Target, file: SourceFile, c: CacheState, es: seq<Event>, once: Options)
    requires CompletedChain(t, file, c, es)
    requires once.target == t && !once.resume && !TurnedAway(once, file, c)
    requires SyncOutcome(once, file, c).result.status == StatusCompleted
    ensures var chained, marks := RunEvents(c, es).db.runs[t.runId].normalizedCount, TraceOf(c, es).marks;
            var counted := SyncOutcome(once, file, c).result.stats.normalizedCount;
            && Ascending(marks, |file.slots|)
            && chained >= counted
            && (chained == counted <==> NothingRepeated(file.slots, marks, |file.slots|))
  {
    CompletedChainIsExplained(t, file, c, es, false);
    TallyIsExact(file.slots, TraceOf(c, es).marks, |file.slots|);
    var m := CallCounts(once, file, c);
  }

  // ----- refused rows in strict mode -----

  // Main result: where a chain of strict calls completes, one strict call completes exactly when each row
  // that was the last one noted before a resumption is acceptable. No other row can be passed over.
  lemma StrictChainSkipsExactly(t: Target, file: SourceFile, c: CacheState, es: seq<Event>, once: Options)
    requires CompletedChain(t, file, c, es) && AllStrict(es)
    requires once.target == t && !once.resume && once.strict && once.stop == Never && !TurnedAway(once, file, c)
    ensures SyncOutcome(once, file, c).result.status == StatusCompleted
            <==> forall k :: k in TraceOf(c, es).marks && 0 < k <= |file.slots| ==>
                   RowAccepted(true, file.slots, k - 1, 0)
  {
    CompletedChainIsExplained(t, file, c, es, true);
    UndisturbedCallCompletesExactly(once, file, c);
    var marks := TraceOf(c, es).marks;
    if forall k :: k in marks && 0 < k <= |file.slots| ==> RowAccepted(true, file.slots, k - 1, 0) {
      forall i | 0 <= i < |file.slots| ensures RowAccepted(true, file.slots, i, 0) {
        assert i + 1 in marks ==> RowAccepted(true, file.slots, i + 1 - 1, 0);
      }
    }
  }

  // ----- lost rows -----

  // What the trace calls lost is what a losing call loses, unless the table had the record already.
  lemma LossIsTraced(o: Options, file: SourceFile, base: map<Key, Row>, c: CacheState)
    requires Consistent(file.slots)
    ensures LosesRow(o, file, base, c)
            <==> LostRows(o, file.slots, StartRow(o, c), c.hasFile) != {}
                 && !AlreadyStored(o.target, file.slots, base, o.stop.row - 1)
    ensures LosesRow(o, file, base, c) ==> LostRows(o, file.slots, StartRow(o, c), c.hasFile) == {o.stop.row - 1}
  {
    var slots, start := file.slots, StartRow(o, c);
    if LosesRow(o, file, base, c) {
      UnstoredIsFresh(o.target, slots, base, start, o.stop.row - 1);
      StoppedAt(o, slots, start, c.hasFile, o.stop.row - 1);
    }
    if LostRows(o, slots, start, c.hasFile) != {} {
      var n := FirstThrow(o, slots, start, c.hasFile, 0);
      forall i | 0 <= i < n ensures RowAccepted(o.strict, slots, i, start) {
        assert !RowThrows(o, slots, i, start, c.hasFile);
      }
    }
  }

  // Main result: a completed chain leaves the import of the whole file without the rows it lost.
  lemma ChainLeavesAllButLost(t: Target, file: SourceFile, c: CacheState, es: seq<Event>)
    requires Consistent(file.slots) && CompletedChain(t, file, c, es)
    ensures RunEvents(c, es).db.records
            == ImportedBut(t, file.slots, c.db.records, |file.slots|, TraceOf(c, es).lost)
  {
    CompletedChainIsExplained(t, file, c, es, false);
  }

  // So it has a row's record exactly when the cache had it or a row that is not lost brings it.
  lemma ChainKeepsExactly(t: Target, file: SourceFile, c: CacheState, es: seq<Event>, i: nat)
    requires Consistent(file.slots) && CompletedChain(t, file, c, es)
    requires i < |file.slots| && file.slots[i].Good? && file.slots[i].outcome.Some?
    ensures var record := file.slots[i].outcome.value;
            HasRow(t, RunEvents(c, es).db.records, record)
            <==> HasRow(t, c.db.records, record) || BroughtBut(file.slots, |file.slots|, TraceOf(c, es).lost, i)
  {
    ChainLeavesAllButLost(t, file, c, es);
    ImportedButHas(t, file.slots, c.db.records, |file.slots|, TraceOf(c, es).lost, i);
  }
}
