// The local SQLite cache: an in-memory database with import transactions, a table of
// import runs, and a file image that save() replaces as a whole.
module SqliteCache {
  import opened Wrappers
  import opened Records
  import opened LicenseNumbers
  import opened Redaction
  import opened Sorting
  import opened Verification

  // The unique constraint of the record table, and the target of the upsert.
  datatype Key = Key(sourceId: string, fingerprint: string)

  datatype Row = Row(record: Record, importRunId: Option<string>, retainedUntil: Option<int>, redactedAt: Option<int>)

  datatype RunStatus = Running | Completed | Failed | Interrupted

  datatype Run = Run(
    sourceId: string, sha256: string, status: RunStatus, lastProcessedRow: nat,
    rawCount: nat, normalizedCount: nat, duplicateCount: nat, warningCount: nat, errorCount: nat)

  datatype Progress = Progress(
    lastProcessedRow: nat, rawCount: nat, normalizedCount: nat, duplicateCount: nat,
    warningCount: nat, errorCount: nat)

  datatype Db = Db(records: map<Key, Row>, runs: map<string, Run>)

  // An open transaction remembers the database to roll back to.
  datatype Txn = Txn(before: Db, count: nat)

  datatype CacheState = CacheState(db: Db, txn: Option<Txn>, dirty: bool, hasFile: bool, disk: Db)

  // ----- what each operation does to the state -----

  function Begun(c: CacheState): CacheState
    requires c.txn.None?
  {
    c.(txn := Some(Txn(c.db, 0)))
  }

  function Upserted(c: CacheState, key: Key, row: Row): CacheState
    requires c.txn.Some?
  {
    c.(db := c.db.(records := c.db.records[key := row]), txn := Some(c.txn.value.(count := c.txn.value.count + 1)))
  }

  function Committed(c: CacheState): CacheState
    requires c.txn.Some?
  {
    c.(txn := None, dirty := c.dirty || c.txn.value.count > 0)
  }

  function RolledBack(c: CacheState): CacheState {
    if c.txn.None? then c else c.(db := c.txn.value.before, txn := None)
  }

  function WithRun(c: CacheState, id: string, run: Run): CacheState {
    c.(db := c.db.(runs := c.db.runs[id := run]), dirty := true)
  }

  function FreshRun(sourceId: string, sha256: string): Run {
    Run(sourceId, sha256, Running, 0, 0, 0, 0, 0, 0)
  }

  function Advanced(run: Run, p: Progress): Run {
    run.(lastProcessedRow := p.lastProcessedRow, rawCount := p.rawCount, normalizedCount := p.normalizedCount,
         duplicateCount := p.duplicateCount, warningCount := p.warningCount, errorCount := p.errorCount)
  }

  function Checkpointed(c: CacheState, id: string, p: Progress): CacheState {
    if id in c.db.runs then WithRun(c, id, Advanced(c.db.runs[id], p)) else c
  }

  function Finished(c: CacheState, id: string, status: RunStatus): CacheState {
    if id in c.db.runs then WithRun(c, id, c.db.runs[id].(status := status)) else c
  }

  // The write replaces the file by rename, so it happens entirely or not at all.
  function Saved(c: CacheState): CacheState
    requires c.txn.None?
  {
    if !c.hasFile || !c.dirty then c else c.(disk := c.db, dirty := false)
  }

  // Opening the file again after the process ended.
  function Reopened(c: CacheState): CacheState {
    c.(db := c.disk, txn := None, dirty := true)
  }

  // ----- what lookups find and what redaction and pruning leave -----

  // A record read back takes its source and fingerprint from the row's own columns.
  function ReadBack(key: Key, row: Row): Record {
    row.record.(sourceId := key.sourceId, fingerprint := key.fingerprint)
  }

  // The columns of the upsert target.
  function KeyOf(record: Record): Key {
    Key(record.sourceId, record.fingerprint)
  }

  predicate Hit(table: map<Key, Row>, key: Key, sourceId: string, number: string) {
    key in table && key.sourceId == sourceId && table[key].record.licenseNumberNormalized == number
  }

  function Matching(table: map<Key, Row>, sourceId: string, number: string): (r: set<string>)
    ensures forall fingerprint :: fingerprint in r <==> Hit(table, Key(sourceId, fingerprint), sourceId, number)
  {
    set key | key in table && Hit(table, key, sourceId, number) :: key.fingerprint
  }

  ghost function RecordsFor(table: map<Key, Row>, sourceId: string, fingerprints: seq<string>): (r: seq<Record>)
    requires Present(table, sourceId, fingerprints)
  {
    seq(|fingerprints|, i requires 0 <= i < |fingerprints| =>
      ReadBack(Key(sourceId, fingerprints[i]), table[Key(sourceId, fingerprints[i])]))
  }

  // The matching records in the order of their ids, which follow the fingerprints.
  ghost function Found(table: map<Key, Row>, sourceId: string, number: Option<string>): seq<Record> {
    if number.None? then [] else RecordsFor(table, sourceId, InOrder(Matching(table, sourceId, number.value)))
  }

  ghost function CachedLookup(
      upper: CaseMap, table: map<Key, Row>, sourceId: string, licenseNumber: Option<string>): LookupResult {
    var number := NormalizeLicenseNumber(upper, licenseNumber);
    if number.None? then MissingRequiredInput else Decide(Found(table, sourceId, number), false)
  }

  function RowAfterRedaction(record: Record, retainedUntil: Option<int>, o: RedactionOptions, now: int): Row {
    Row(RedactCanonicalRecord(record, o), record.importRunId, retainedUntil, Some(now))
  }

  function RedactedRow(key: Key, row: Row, o: RedactionOptions, now: int): (r: Row)
    ensures r.retainedUntil == row.retainedUntil
  {
    RowAfterRedaction(ReadBack(key, row), row.retainedUntil, o, now)
  }

  function WithTable(c: CacheState, table: map<Key, Row>): CacheState {
    c.(db := c.db.(records := table))
  }

  // Every hit is redacted and keeps its retention, every other row stays.
  function RedactedTable(
      table: map<Key, Row>, sourceId: string, number: string, o: RedactionOptions, now: int): map<Key, Row> {
    map key | key in table ::
      if Hit(table, key, sourceId, number) then RedactedRow(key, table[key], o, now) else table[key]
  }

  ghost predicate Present(table: map<Key, Row>, sourceId: string, fingerprints: seq<string>) {
    forall i :: 0 <= i < |fingerprints| ==> Key(sourceId, fingerprints[i]) in table
  }

  // After the first n of these rows.
  ghost function RedactedUpTo(
    table: map<Key, Row>, sourceId: string, fingerprints: seq<string>, o: RedactionOptions, now: int, n: nat)
    : (r: map<Key, Row>)
    requires n <= |fingerprints| && Present(table, sourceId, fingerprints)
  {
    if n == 0 then table
    else
      var key := Key(sourceId, fingerprints[n - 1]);
      RedactedUpTo(table, sourceId, fingerprints, o, now, n - 1)[key := RedactedRow(key, table[key], o, now)]
  }

  lemma {:induction false} RedactedUpToHas(
    table: map<Key, Row>, sourceId: string, fingerprints: seq<string>, o: RedactionOptions, now: int, n: nat, key: Key)
    requires n <= |fingerprints| && Present(table, sourceId, fingerprints)
    ensures key in table <==> key in RedactedUpTo(table, sourceId, fingerprints, o, now, n)
    ensures key in table ==>
              RedactedUpTo(table, sourceId, fingerprints, o, now, n)[key]
              == if key.sourceId == sourceId && key.fingerprint in fingerprints[..n]
                 then RedactedRow(key, table[key], o, now)
               else table[key]
  {
    if n > 0 {
      RedactedUpToHas(table, sourceId, fingerprints, o, now, n - 1, key);
      assert fingerprints[..n] == fingerprints[..n - 1] + [fingerprints[n - 1]];
      assert key.sourceId == sourceId && key.fingerprint == fingerprints[n - 1]
             ==> key == Key(sourceId, fingerprints[n - 1]);
    }
  }

  lemma RedactedUpToStep(
    table: map<Key, Row>, sourceId: string, fingerprints: seq<string>, o: RedactionOptions, now: int, i: nat,
    record: Record)
    requires i < |fingerprints| && Present(table, sourceId, fingerprints)
    requires record == RecordsFor(table, sourceId, fingerprints)[i]
    ensures var key, before := KeyOf(record), RedactedUpTo(table, sourceId, fingerprints, o, now, i);
            && key in before
            && before[key := RowAfterRedaction(record, before[key].retainedUntil, o, now)]
               == RedactedUpTo(table, sourceId, fingerprints, o, now, i + 1)
  {
    RedactedUpToHas(table, sourceId, fingerprints, o, now, i, KeyOf(record));
  }

  lemma RedactedUpToEnd(
    table: map<Key, Row>, sourceId: string, number: string, fingerprints: seq<string>, o: RedactionOptions, now: int)
    requires Orders(Matching(table, sourceId, number), fingerprints) && Present(table, sourceId, fingerprints)
    ensures RedactedUpTo(table, sourceId, fingerprints, o, now, |fingerprints|)
            == RedactedTable(table, sourceId, number, o, now)
  {
    assert fingerprints[..|fingerprints|] == fingerprints;
    var r := RedactedUpTo(table, sourceId, fingerprints, o, now, |fingerprints|);
    forall key
      ensures key in table <==> key in r
      ensures key in table ==> r[key] == RedactedTable(table, sourceId, number, o, now)[key]
    {
      RedactedUpToHas(table, sourceId, fingerprints, o, now, |fingerprints|, key);
      assert key.sourceId == sourceId ==> key == Key(sourceId, key.fingerprint);
    }
  }

  predicate Expired(row: Row, asOf: int) {
    row.retainedUntil.Some? && row.retainedUntil.value < asOf
  }

  function Pruned(table: map<Key, Row>, asOf: int): map<Key, Row> {
    map key | key in table && !Expired(table[key], asOf) :: table[key]
  }

  // ----- the cache object; a false result is a thrown error -----

  const SQLITE_SCHEMA_VERSION: nat := 4

  // What open() finds: no file asked for, or a file in some state.
  datatype CacheFile = InMemory | Missing | Unreadable | Image(db: Db, version: nat)

  datatype OpenError = CannotRead | NewerSchema

  class OpenTradeSqliteCache {
    var database: Db
    var transaction: Option<Txn>
    var dirty: bool
    var disk: Db
    const hasFile: bool

    function State(): CacheState
      reads this
    {
      CacheState(database, transaction, dirty, hasFile, disk)
    }

    constructor (image: Db, hasFile: bool)
      ensures State() == CacheState(image, None, true, hasFile, image)
    {
      this.hasFile := hasFile;
      database, transaction, dirty, disk := image, None, true, image;
    }

    // A missing file starts empty if it may be created; a migrated cache counts as changed.
    static method Open(file: CacheFile, create: bool) returns (r: Result<OpenTradeSqliteCache, OpenError>)
      ensures r == Err(CannotRead) <==> file.Unreadable? || (file.Missing? && !create)
      ensures r == Err(NewerSchema) <==> file.Image? && file.version > 4
      ensures r.Ok? ==>
                var image := if file.Image? then file.db else Db(map[], map[]);
                fresh(r.value) && r.value.State() == CacheState(image, None, true, !file.InMemory?, image)
      // opening a cache's file again
      ensures r.Ok? && file.Image? ==>
                forall c: CacheState :: c.hasFile && c.disk == file.db ==> r.value.State() == Reopened(c)
    {
      match file {
        case Unreadable =>
          return Err(CannotRead);
        case Image(db, version) =>
          if version > SQLITE_SCHEMA_VERSION {
            return Err(NewerSchema);
          }
          var cache := new OpenTradeSqliteCache(db, true);
          return Ok(cache);
        case _ =>
          if file.Missing? && !create {
            return Err(CannotRead);
          }
          var cache := new OpenTradeSqliteCache(Db(map[], map[]), file.Missing?);
          return Ok(cache);
      }
    }

    method BeginImport() returns (ok: bool)
      modifies this
      ensures ok == old(State().txn.None?)
      ensures State() == if ok then Begun(old(State())) else old(State())
      ensures ok ==> transaction == Some(Txn(old(database), 0)) && unchanged(`database, `dirty, `disk)
    {
      if transaction.Some? {
        return false;
      }
      transaction := Some(Txn(database, 0));
      return true;
    }

    method ImportRecord(row: Row) returns (ok: bool)
      modifies this
      ensures ok == old(State().txn.Some?)
      ensures State() == if ok then Upserted(old(State()), KeyOf(row.record), row) else old(State())
      ensures var key := Key(row.record.sourceId, row.record.fingerprint);
              ok ==>
                && database == old(database).(records := old(database.records)[key := row])
                && transaction == Some(Txn(old(transaction.value.before), old(transaction.value.count) + 1))
                && unchanged(`dirty, `disk)
    {
      if transaction.None? {
        return false;
      }
      database := database.(records := database.records[KeyOf(row.record) := row]);
      transaction := Some(transaction.value.(count := transaction.value.count + 1));
      return true;
    }

    // The number of imported records; None is a thrown error.
    method CommitImport() returns (count: Option<nat>)
      modifies this
      ensures count == if old(State().txn.Some?) then Some(old(State().txn.value.count)) else None
      ensures State() == if count.Some? then Committed(old(State())) else old(State())
      ensures count.Some? ==>
                transaction == None && dirty == (old(dirty) || count.value > 0) && unchanged(`database, `disk)
    {
      if transaction.None? {
        return None;
      }
      count := Some(transaction.value.count);
      dirty := dirty || transaction.value.count > 0;
      transaction := None;
    }

    method RollbackImport()
      modifies this
      ensures State() == RolledBack(old(State()))
      ensures database == old(if transaction.Some? then transaction.value.before else database)
      ensures transaction == None && unchanged(`dirty, `disk)
    {
      if transaction.Some? {
        database := transaction.value.before;
        transaction := None;
      }
    }

    method StartImportRun(id: string, sourceId: string, sha256: string)
      modifies this
      ensures State() == WithRun(old(State()), id, FreshRun(sourceId, sha256))
      ensures database == old(database).(
                            runs := old(database.runs)[id := Run(sourceId, sha256, Running, 0, 0, 0, 0, 0, 0)])
      ensures dirty && unchanged(`transaction, `disk)
    {
      database := database.(runs := database.runs[id := FreshRun(sourceId, sha256)]);
      dirty := true;
    }

    method ResumeImportRun(id: string) returns (ok: bool)
      modifies this
      ensures ok == old(id in State().db.runs && State().db.runs[id].status == Interrupted)
      ensures State() == if ok then Finished(old(State()), id, Running) else old(State())
      ensures ok ==> database.runs == old(database.runs)[id := old(database.runs[id]).(status := Running)] && dirty
    {
      if id !in database.runs || database.runs[id].status != Interrupted {
        return false;
      }
      database := database.(runs := database.runs[id := database.runs[id].(status := Running)]);
      dirty := true;
      return true;
    }

    method CheckpointImportRun(id: string, p: Progress) returns (ok: bool)
      modifies this
      ensures ok == old(id in State().db.runs)
      ensures State() == Checkpointed(old(State()), id, p)
      ensures ok ==>
                && database.runs.Keys == old(database.runs.Keys) && dirty
                && var was, run := old(database.runs[id]), database.runs[id];
                   && run.sourceId == was.sourceId && run.sha256 == was.sha256 && run.status == was.status
                   && Progress(run.lastProcessedRow, run.rawCount, run.normalizedCount, run.duplicateCount,
                               run.warningCount, run.errorCount) == p
    {
      if id !in database.runs {
        return false;
      }
      database := database.(runs := database.runs[id := Advanced(database.runs[id], p)]);
      dirty := true;
      return true;
    }

    method FinishImportRun(id: string, status: RunStatus) returns (ok: bool)
      modifies this
      ensures ok == old(id in State().db.runs)
      ensures State() == Finished(old(State()), id, status)
      ensures ok ==> database.runs == old(database.runs)[id := old(database.runs[id]).(status := status)] && dirty
    {
      if id !in database.runs {
        return false;
      }
      database := database.(runs := database.runs[id := database.runs[id].(status := status)]);
      dirty := true;
      return true;
    }

    // writable says whether the file system lets this write through.
    method Save(writable: bool) returns (ok: bool)
      modifies this
      ensures ok == old(State().txn.None? && (writable || !State().hasFile || !State().dirty))
      ensures State() == if ok then Saved(old(State())) else old(State())
      ensures ok ==>
                && disk == (if hasFile && old(dirty) then database else old(disk))
                && dirty == (old(dirty) && !hasFile) && unchanged(`database, `transaction)
    {
      if transaction.Some? {
        return false;
      }
      if !hasFile || !dirty {
        return true;
      }
      if !writable {
        return false;
      }
      disk := database;
      dirty := false;
      return true;
    }

    // The engine's part of the query: the matching keys in id order.
    method SelectByNumber(sourceId: string, number: string) returns (fingerprints: seq<string>)
      ensures fingerprints == InOrder(Matching(State().db.records, sourceId, number))
    {
      var table := database.records;
      var rest := table.Keys;
      fingerprints := [];
      while rest != {}
        invariant rest <= table.Keys
        invariant Ascending(fingerprints, TextLess)
        invariant forall f ::
                    f in fingerprints <==> Hit(table, Key(sourceId, f), sourceId, number) && Key(sourceId, f) !in rest
        decreases |rest|
      {
        var key :| key in rest;
        rest := rest - {key};
        if key.sourceId == sourceId && table[key].record.licenseNumberNormalized == number {
          assert key == Key(sourceId, key.fingerprint);
          InsertName(key.fingerprint, fingerprints);
          fingerprints := Insert(key.fingerprint, fingerprints, f => f, TextLess);
        }
      }
      TextLessIsOrder();
      AscendingIsUnique(fingerprints, InOrder(Matching(table, sourceId, number)), TextLess);
    }

    method StepThrough(sourceId: string, fingerprints: seq<string>) returns (records: seq<Record>)
      requires Present(State().db.records, sourceId, fingerprints)
      ensures records == RecordsFor(State().db.records, sourceId, fingerprints)
    {
      records := [];
      var i := 0;
      while i < |fingerprints|
        invariant 0 <= i <= |fingerprints|
        invariant records == RecordsFor(database.records, sourceId, fingerprints)[..i]
      {
        var key := Key(sourceId, fingerprints[i]);
        records := records + [ReadBack(key, database.records[key])];
        i := i + 1;
      }
    }

    method FindByLicenseNumber(
        upper: CaseMap, sourceId: string, licenseNumber: Option<string>) returns (records: seq<Record>)
      ensures records == Found(State().db.records, sourceId, NormalizeLicenseNumber(upper, licenseNumber))
    {
      var number := NormalizeLicenseNumber(upper, licenseNumber);
      if number.None? {
        return [];
      }
      var fingerprints := SelectByNumber(sourceId, number.value);
      records := StepThrough(sourceId, fingerprints);
    }

    method Verify(upper: CaseMap, sourceId: string, licenseNumber: Option<string>) returns (r: LookupResult)
      ensures r == CachedLookup(upper, State().db.records, sourceId, licenseNumber)
    {
      var number := NormalizeLicenseNumber(upper, licenseNumber);
      if number.None? {
        return MissingRequiredInput;
      }
      NormalFormsAreFixedPoints(upper, licenseNumber.value);
      var records := FindByLicenseNumber(upper, sourceId, number);
      if |records| == 0 {
        return NotFound;
      }
      if |records| > 1 {
        return Ambiguous(records);
      }
      return Matched(records[0]);
    }

    method RedactOne(
      sourceId: string, record: Record, o: RedactionOptions, now: int,
      ghost table: map<Key, Row>, ghost fingerprints: seq<string>, ghost i: nat)
      requires i < |fingerprints| && Present(table, sourceId, fingerprints)
      requires record == RecordsFor(table, sourceId, fingerprints)[i]
      requires database.records == RedactedUpTo(table, sourceId, fingerprints, o, now, i)
      modifies this`database
      ensures database == old(database).(records := RedactedUpTo(table, sourceId, fingerprints, o, now, i + 1))
    {
      RedactedUpToStep(table, sourceId, fingerprints, o, now, i, record);
      var key := KeyOf(record);
      var row := RowAfterRedaction(record, database.records[key].retainedUntil, o, now);
      database := database.(records := database.records[key := row]);
    }

    // The statements of one redaction; failsAt: the upsert of this record throws.
    method RedactEach(
      sourceId: string, ghost fingerprints: seq<string>, records: seq<Record>, o: RedactionOptions, now: int,
      failsAt: Option<nat>)
      returns (ok: bool)
      requires Present(State().db.records, sourceId, fingerprints)
      requires records == RecordsFor(State().db.records, sourceId, fingerprints)
      modifies this`database
      ensures ok <==> !(failsAt.Some? && failsAt.value < |records|)
      ensures database.runs == old(database.runs)
      ensures ok ==>
                database.records == RedactedUpTo(old(database.records), sourceId, fingerprints, o, now, |fingerprints|)
    {
      ghost var table := database.records;
      var i := 0;
      while i < |records|
        invariant 0 <= i <= |records| == |fingerprints|
                  && (failsAt.Some? && failsAt.value < |records| ==> i <= failsAt.value)
        invariant database.runs == old(database.runs)
        invariant database.records == RedactedUpTo(table, sourceId, fingerprints, o, now, i)
      {
        if failsAt == Some(i) {
          return false;
        }
        RedactOne(sourceId, records[i], o, now, table, fingerprints, i);
        i := i + 1;
      }
      return true;
    }

    // None is a thrown error.
    method Redact(
      upper: CaseMap, sourceId: string, licenseNumber: Option<string>, o: RedactionOptions, now: int,
      failsAt: Option<nat>)
      returns (count: Option<nat>)
      modifies this
      ensures var was, number := old(State()), NormalizeLicenseNumber(upper, licenseNumber);
              var found := Found(was.db.records, sourceId, number);
              && (count.None? <==> found != [] && (was.txn.Some? || (failsAt.Some? && failsAt.value < |found|)))
              && (count.Some? ==> count.value == |found|)
              && State() == if count.None? || found == [] then was else
                   WithTable(was, RedactedTable(was.db.records, sourceId, number.value, o, now)).(dirty := true)
      // exactly the rows of the source and number are redacted; each keeps its retention and gets the time
      ensures var table, number := old(database.records), NormalizeLicenseNumber(upper, licenseNumber);
              count.Some? ==>
                && database.records.Keys == table.Keys && unchanged(`transaction, `disk)
                && forall key :: key in table ==>
                     database.records[key]
                     == if number == Some(table[key].record.licenseNumberNormalized) && key.sourceId == sourceId then
                          var stored := table[key].record.(sourceId := key.sourceId, fingerprint := key.fingerprint);
                          Row(RedactCanonicalRecord(stored, o), stored.importRunId, table[key].retainedUntil, Some(now))
                        else table[key]
    {
      var records := FindByLicenseNumber(upper, sourceId, licenseNumber);
      if |records| == 0 {
        return Some(0);
      }
      if transaction.Some? {
        return None;
      }
      var number := NormalizeLicenseNumber(upper, licenseNumber);
      ghost var table := database.records;
      ghost var fingerprints := InOrder(Matching(table, sourceId, number.value));
      RedactedUpToEnd(table, sourceId, number.value, fingerprints, o, now);
      var before := database;
      var ok := RedactEach(sourceId, fingerprints, records, o, now, failsAt);
      if !ok {
        database := before;
        return None;
      }
      dirty := true;
      return Some(|records|);
    }

    method PruneExpiredRetention(asOf: int) returns (removed: nat)
      modifies this
      ensures removed == |old(State()).db.records.Keys - State().db.records.Keys|
      ensures var pruned := old(State()).db.(records := Pruned(old(State()).db.records, asOf));
              State() == old(State()).(db := pruned, dirty := old(State()).dirty || pruned != old(State()).db)
      // a row stays exactly when its retention has no end, or an end that is not before the given time
      ensures forall key :: key in database.records
                <==> key in old(database.records)
                     && var until := old(database.records)[key].retainedUntil; until.None? || until.value >= asOf
      ensures forall key :: key in database.records ==> database.records[key] == old(database.records)[key]
    {
      var kept := Pruned(database.records, asOf);
      removed := |database.records.Keys - kept.Keys|;
      if removed == 0 {
        assert kept.Keys == database.records.Keys;
        assert kept == database.records;
      }
      database := database.(records := kept);
      dirty := dirty || removed > 0;
    }
  }
}
