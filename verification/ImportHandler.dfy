// The worker's snapshot import: verify, stage, verify again, check readiness, promote - and mark the
// manifest failed whenever anything goes wrong after processing began.
module ImportHandler {
  import opened Wrappers
  import opened Promotion
  import opened ImportRows

  // The calls the handler makes, in order.
  datatype Call =
    | AdmissionPassed | SnapshotVerified | ManifestCreated | MarkedProcessing | RecordStaged(key: string)
    | MarkedValidated | PromoteCalled | MarkedFailed

  // Which outside call throws first, if any.
  datatype Site =
    | Nowhere | FirstAdmission | FirstVerification | Creating | MarkingProcessing
    | BeforeRow(row: nat) | Staging(row: nat) | Heartbeat(row: nat)
    | SecondVerification | SecondAdmission | Validating | Promoting

  // tookEffect: the failing markValidated or promote had changed the database all the same.
  // secondAdmissionWarns: it warns in words that no earlier warning used; others are not repeated.
  datatype Environment = Environment(
    site: Site, tookEffect: bool, markFailedThrows: bool, firstAdmissionWarns: bool, secondAdmissionWarns: bool)

  // ----- the store: each update is guarded by its where clause -----

  class ImportStore {
    var status: Option<Status>
    var staged: seq<StagedRecord>
    var log: seq<Call>

    constructor ()
      ensures status == None && staged == [] && log == []
    {
      status, staged, log := None, [], [];
    }

    method Note(call: Call)
      modifies this`log
      ensures log == old(log) + [call]
    {
      log := log + [call];
    }

    method CreateManifest()
      modifies this`status, this`log
      ensures status == Some(Pending) && log == old(log) + [ManifestCreated]
    {
      status, log := Some(Pending), log + [ManifestCreated];
    }

    method MarkProcessing()
      modifies this`status, this`log
      ensures status == (if old(status) == Some(Pending) then Some(Processing) else old(status))
      ensures log == old(log) + [MarkedProcessing]
    {
      if status == Some(Pending) {
        status := Some(Processing);
      }
      log := log + [MarkedProcessing];
    }

    method StageRecord(record: StagedRecord)
      modifies this`staged, this`log
      ensures staged == old(staged) + [record] && log == old(log) + [RecordStaged(record.sourceRecordKey)]
    {
      staged, log := staged + [record], log + [RecordStaged(record.sourceRecordKey)];
    }

    method MarkValidated(takesEffect: bool)
      modifies this`status, this`log
      ensures status == (if takesEffect && old(status) == Some(Processing) then Some(Validated) else old(status))
      ensures log == old(log) + [MarkedValidated]
    {
      if takesEffect && status == Some(Processing) {
        status := Some(Validated);
      }
      log := log + [MarkedValidated];
    }

    // promote_import raises an exception unless the manifest is validated.
    method Promote(takesEffect: bool) returns (ok: bool)
      modifies this`status, this`log
      ensures ok == (old(status) == Some(Validated))
      ensures status == (if takesEffect && ok then Some(Promoted) else old(status))
      ensures log == old(log) + [PromoteCalled]
    {
      ok := status == Some(Validated);
      if takesEffect && ok {
        status := Some(Promoted);
      }
      log := log + [PromoteCalled];
    }

    method MarkFailed(takesEffect: bool)
      modifies this`status, this`log
      ensures status == (if takesEffect && old(status) in {Some(Pending), Some(Processing), Some(Validated)}
                         then Some(Failed) else old(status))
      ensures log == old(log) + [MarkedFailed]
    {
      if takesEffect && status in {Some(Pending), Some(Processing), Some(Validated)} {
        status := Some(Failed);
      }
      log := log + [MarkedFailed];
    }
  }

  // ----- the calls of a run -----

  function AdmissionWarnings(env: Environment, both: bool): nat {
    (if env.firstAdmissionWarns then 1 else 0) + if both && env.secondAdmissionWarns then 1 else 0
  }

  function StageCalls(records: seq<StagedRecord>): seq<Call> {
    if records == [] then []
    else StageCalls(records[..|records| - 1]) + [RecordStaged(records[|records| - 1].sourceRecordKey)]
  }

  function Prologue(): seq<Call> {
    [AdmissionPassed, SnapshotVerified, ManifestCreated, MarkedProcessing]
  }

  // The calls of a run that ends before its row loop.
  function CallsBeforeLoop(site: Site): seq<Call> {
    match site
    case FirstAdmission => []
    case FirstVerification => [AdmissionPassed]
    case Creating => [AdmissionPassed, SnapshotVerified]
    case _ => Prologue()
  }

  // The calls up to and including the one that promotes.
  function CallsToPromotion(records: seq<StagedRecord>): seq<Call> {
    Prologue() + StageCalls(records) + [SnapshotVerified, AdmissionPassed, MarkedValidated, PromoteCalled]
  }

  lemma {:induction false} StageCallsDoNotPromote(records: seq<StagedRecord>)
    ensures forall call :: call in StageCalls(records) ==> call.RecordStaged?
  {
    if records != [] {
      StageCallsDoNotPromote(records[..|records| - 1]);
    }
  }

  lemma OneMoreStaged(sourceId: string, records: seq<StagedRecord>, record: StagedRecord)
    ensures StageCalls(records + [record]) == StageCalls(records) + [RecordStaged(record.sourceRecordKey)]
    ensures KeySet(records + [record]) == KeySet(records) + {record.sourceRecordKey}
    ensures ListedAs(sourceId, records + [record]) == ListedAs(sourceId, records) + [record.(sourceId := sourceId)]
  {
    assert (records + [record])[..|records|] == records;
    OneMoreKey(records, record);
    OneMoreListed(sourceId, records, record);
  }

  // The calls before the last two do not promote.
  function CallsToReadiness(records: seq<StagedRecord>): seq<Call> {
    Prologue() + StageCalls(records) + [SnapshotVerified, AdmissionPassed]
  }

  lemma ReadinessCallsDoNotPromote(records: seq<StagedRecord>)
    ensures PromoteCalled !in Prologue() + StageCalls(records)
    ensures PromoteCalled !in Prologue() + StageCalls(records) + [SnapshotVerified]
    ensures PromoteCalled !in CallsToReadiness(records)
    ensures CallsToPromotion(records) == CallsToReadiness(records) + [MarkedValidated] + [PromoteCalled]
    ensures PromoteCalled !in CallsToReadiness(records) + [MarkedValidated]
  {
    StageCallsDoNotPromote(records);
  }

  // ----- what ends a run -----

  datatype HandlerError =
    | SourceMismatch | NoAdapter | Outside | NormalizationFailed | NotReady(reason: PromotionError)

  // The row brings the first record of its key.
  predicate BringsNew(events: seq<RowEvent>, i: nat)
    requires i < |events|
  {
    && events[i].Raw? && events[i].record.Some?
    && forall j :: 0 <= j < i ==> !HasKey(events[j], events[i].record.value.key)
  }

  lemma BringsNewIsUnseen(events: seq<RowEvent>, i: nat)
    requires i < |events| && events[i].Raw? && events[i].record.Some?
    ensures BringsNew(events, i) <==> events[i].record.value.key !in KeySet(InsertedFrom(events, i))
  {
    InsertedKeysAre(events, i, events[i].record.value.key);
  }

  // What ends the loop at row i; behind the last row only the outside can.
  function RowFailure(site: Site, strict: bool, events: seq<RowEvent>, i: nat): Option<HandlerError>
    requires i <= |events|
  {
    if site == BeforeRow(i) then Some(Outside)
    else if i == |events| then None
    else if events[i].Broken? then Some(Outside)
    else if strict && events[i].Raw? && events[i].record.None? then Some(NormalizationFailed)
    else if site in {Staging(i), Heartbeat(i)} && BringsNew(events, i) then Some(Outside)
    else None
  }

  // Nothing ends the loop before row n.
  ghost predicate GoesThrough(site: Site, strict: bool, events: seq<RowEvent>, n: nat)
    requires n <= |events|
  {
    forall i :: 0 <= i < n ==> RowFailure(site, strict, events, i).None?
  }

  ghost predicate EndsAt(site: Site, strict: bool, events: seq<RowEvent>, i: nat) {
    i <= |events| && GoesThrough(site, strict, events, i) && RowFailure(site, strict, events, i).Some?
  }

  // The outside leaves the rows alone.
  ghost predicate SparesRows(site: Site, events: seq<RowEvent>) {
    match site
    case BeforeRow(row) => row > |events|
    case Staging(row) => row < |events| ==> !BringsNew(events, row)
    case Heartbeat(row) => row < |events| ==> !BringsNew(events, row)
    case _ => true
  }

  // No call of the outside fails while the rows are good.
  ghost predicate Undisturbed(site: Site, events: seq<RowEvent>) {
    && SparesRows(site, events)
    && site !in {FirstAdmission, FirstVerification, Creating, MarkingProcessing}
    && site !in {SecondVerification, SecondAdmission, Validating, Promoting}
  }

  lemma GoesThroughExactly(site: Site, strict: bool, events: seq<RowEvent>)
    ensures GoesThrough(site, strict, events, |events|) && RowFailure(site, strict, events, |events|).None?
            <==> SparesRows(site, events) && RowsPass(events, strict, |events|)
    ensures forall i, j :: EndsAt(site, strict, events, i) && EndsAt(site, strict, events, j) ==> i == j
  {
    if SparesRows(site, events) && RowsPass(events, strict, |events|) {
      forall i | 0 <= i < |events| ensures RowFailure(site, strict, events, i).None? {
      }
    }
    if GoesThrough(site, strict, events, |events|) && RowFailure(site, strict, events, |events|).None? {
      forall i | 0 <= i < |events| ensures !events[i].Broken? && (strict && events[i].Raw? ==> events[i].record.Some?) {
        assert RowFailure(site, strict, events, i).None?;
      }
      match site {
        case BeforeRow(row) => assert row <= |events| ==> RowFailure(site, strict, events, row).Some?;
        case Staging(row) => assert row < |events| ==> RowFailure(site, strict, events, row).None?;
        case Heartbeat(row) => assert row < |events| ==> RowFailure(site, strict, events, row).None?;
        case _ =>
      }
    }
  }

  // A loop that does not go through ends somewhere.
  lemma EndOf(site: Site, strict: bool, events: seq<RowEvent>) returns (i: nat)
    requires !(SparesRows(site, events) && RowsPass(events, strict, |events|))
    ensures EndsAt(site, strict, events, i)
  {
    GoesThroughExactly(site, strict, events);
    i := 0;
    while i < |events| && RowFailure(site, strict, events, i).None?
      invariant i <= |events| && GoesThrough(site, strict, events, i)
    {
      i := i + 1;
    }
  }

  // ----- the handler -----

  class SnapshotImport {
    const payload: Payload
    const jobSource: Option<string>
    const adapters: set<string>
    const manifestId: string
    const env: Environment
    const store: ImportStore
    var counts: ImportCounts
    var stagedRecords: seq<StagedRecord>
    var seenKeys: set<string>

    constructor (
        payload: Payload, jobSource: Option<string>, adapters: set<string>, manifestId: string, env: Environment,
        store: ImportStore)
      ensures this.payload == payload && this.jobSource == jobSource && this.adapters == adapters
      ensures this.manifestId == manifestId && this.env == env && this.store == store
      ensures counts == ImportCounts(0, 0, 0, 0, 0) && stagedRecords == [] && seenKeys == {}
    {
      this.payload, this.jobSource, this.adapters := payload, jobSource, adapters;
      this.manifestId, this.env, this.store := manifestId, env, store;
      counts, stagedRecords, seenKeys := ImportCounts(0, 0, 0, 0, 0), [], {};
    }

    // The payload is the job's own, and somebody can read its source.
    predicate Accepted() {
      jobSource == Some(payload.sourceId) && payload.sourceId in adapters
    }

    // What the outside leaves the handler to do: the loop and everything behind it.
    predicate ReachesLoop() {
      Accepted() && env.site !in {FirstAdmission, FirstVerification, Creating, MarkingProcessing}
    }

    ghost predicate Untouched()
      reads this, store
    {
      && store.status == None && store.staged == [] && store.log == []
      && counts == ImportCounts(0, 0, 0, 0, 0) && stagedRecords == [] && seenKeys == {}
    }

    // The state of the row loop: before row n, or where it was left by an exception.
    ghost predicate InLoop()
      reads this, store
    {
      store.status == Some(Processing) && store.log == Prologue() + StageCalls(store.staged)
    }

    // The database and the handler's own list differ in the source only.
    ghost predicate InStep()
      reads this, store
    {
      InLoop() && stagedRecords == ListedAs(payload.sourceId, store.staged) && seenKeys == KeySet(store.staged)
    }

    ghost predicate LoopInvariant(events: seq<RowEvent>, n: nat)
      requires n <= |events|
      reads this, store
    {
      && InStep()
      && store.staged == InsertedFrom(events, n)
      && CountsFor(counts, events, n, AdmissionWarnings(env, false))
      && GoesThrough(env.site, payload.strict, events, n)
    }

    // The loop ended at row i, for this reason, with the records inserted so far.
    ghost predicate StoppedAt(events: seq<RowEvent>, i: nat, failure: Option<HandlerError>)
      reads this, store
    {
      && EndsAt(env.site, payload.strict, events, i)
      && failure == RowFailure(env.site, payload.strict, events, i)
      && store.staged == InsertedFrom(events, if env.site == Heartbeat(i) then i + 1 else i)
    }

    // The row is inserted under the record's own source and listed under the payload's.
    method StageNew(row: nat, record: Normalized) returns (thrown: bool)
      requires InStep() && record.key !in seenKeys
      modifies this, store`staged, store`log
      ensures InLoop()
      ensures thrown <==> env.site in {Staging(row), Heartbeat(row)}
      ensures store.staged == old(store.staged) + if env.site == Staging(row) then [] else [Inserted(record)]
      ensures !thrown ==> InStep()
      ensures !thrown ==> counts == old(counts).(normalizedRecordCount := old(counts).normalizedRecordCount + 1)
    {
      seenKeys := seenKeys + {record.key};
      if env.site == Staging(row) {
        return true;
      }
      OneMoreStaged(payload.sourceId, store.staged, Inserted(record));
      store.StageRecord(Inserted(record));
      stagedRecords := stagedRecords + [StagedRecord(payload.sourceId, record.key, record.fingerprint)];
      counts := counts.(normalizedRecordCount := counts.normalizedRecordCount + 1);
      return env.site == Heartbeat(row);
    }

    // A normalized record: a duplicate is counted, another one staged.
    method TakeRecord(row: nat, record: Normalized) returns (thrown: bool)
      requires InStep()
      modifies this, store`staged, store`log
      ensures InLoop()
      ensures var before, known := old(store.staged), record.key in KeySet(old(store.staged));
              && (thrown <==> !known && env.site in {Staging(row), Heartbeat(row)})
              && store.staged == (if known || env.site == Staging(row) then before else before + [Inserted(record)])
      ensures var known := record.key in KeySet(old(store.staged));
              !thrown ==>
                && InStep()
                && counts == if known then old(counts).(duplicateRecordCount := old(counts).duplicateRecordCount + 1)
                             else old(counts).(normalizedRecordCount := old(counts).normalizedRecordCount + 1)
    {
      if record.key in seenKeys {
        counts := counts.(duplicateRecordCount := counts.duplicateRecordCount + 1);
        return false;
      }
      thrown := StageNew(row, record);
    }

    // One event of the stream that is no exception.
    method ReadRow(row: nat, e: RowEvent) returns (failure: Option<HandlerError>)
      requires InStep() && !e.Broken?
      modifies this, store`staged, store`log
      ensures InLoop()
      ensures var before, brings := old(store.staged), e.Raw? && e.record.Some?;
              var known := brings && e.record.value.key in KeySet(before);
              && failure == (if payload.strict && e.Raw? && e.record.None? then Some(NormalizationFailed)
                             else if brings && !known && env.site in {Staging(row), Heartbeat(row)} then Some(Outside)
                             else None)
              && store.staged == (if brings && !known && env.site != Staging(row)
                                  then before + [Inserted(e.record.value)] else before)
              && (failure.None? ==> InStep() && counts == RowCounted(old(counts), e, known))
    {
      match e {
        case Complaint =>
          counts := counts.(errorCount := counts.errorCount + 1);
        case Raw(warningCount, record) =>
          counts := counts.(rawRecordCount := counts.rawRecordCount + 1,
                            warningCount := counts.warningCount + warningCount);
          if record.None? {
            counts := counts.(errorCount := counts.errorCount + 1);
            if payload.strict {
              return Some(NormalizationFailed);
            }
          } else {
            var thrown := TakeRecord(row, record.value);
            if thrown {
              return Some(Outside);
            }
          }
      }
      return None;
    }

    method TakeRow(events: seq<RowEvent>, n: nat) returns (failure: Option<HandlerError>)
      requires n < |events| && LoopInvariant(events, n)
      modifies this, store`staged, store`log
      ensures InLoop()
      ensures failure.None? ==> LoopInvariant(events, n + 1)
      ensures failure.Some? ==> StoppedAt(events, n, failure)
    {
      if env.site == BeforeRow(n) || events[n].Broken? {
        return Some(Outside);
      }
      if events[n].Raw? && events[n].record.Some? {
        BringsNewIsUnseen(events, n);
      }
      OneMoreRow(counts, events, n, AdmissionWarnings(env, false));
      failure := ReadRow(n, events[n]);
    }

    method StageRows(events: seq<RowEvent>) returns (failure: Option<HandlerError>)
      requires LoopInvariant(events, 0)
      modifies this, store`staged, store`log
      ensures InLoop()
      ensures failure.None? ==>
                LoopInvariant(events, |events|) && RowFailure(env.site, payload.strict, events, |events|).None?
      ensures failure.Some? ==> exists i :: StoppedAt(events, i, failure)
    {
      for n := 0 to |events|
        invariant LoopInvariant(events, n)
      {
        failure := TakeRow(events, n);
        if failure.Some? {
          return;
        }
      }
      failure := if env.site == BeforeRow(|events|) then Some(Outside) else None;
      assert failure.Some? ==> StoppedAt(events, |events|, failure);
    }

    // Everything that promotion has behind it, but for the last two calls.
    ghost predicate ReadyToPublish(events: seq<RowEvent>)
      reads this, store
    {
      && store.staged == InsertedFrom(events, |events|)
      && Ready(Contract(payload, manifestId, counts), StagedFrom(payload.sourceId, events, |events|))
      && CountsFor(counts, events, |events|, AdmissionWarnings(env, true))
    }

    // How far a run got, as its calls show it.
    ghost predicate Outcome(events: seq<RowEvent>)
      reads this, store
    {
      && store.status in {Some(Processing), Some(Validated), Some(Promoted)}
      && (store.status == Some(Promoted) ==> PromoteCalled in store.log)
      && (PromoteCalled in store.log ==> store.log == CallsToPromotion(store.staged) && ReadyToPublish(events))
    }

    // What the run answers behind rows that gave no trouble.
    ghost predicate EndAnswers(events: seq<RowEvent>, failure: Option<HandlerError>)
      reads this, store
    {
      && store.staged == InsertedFrom(events, |events|)
      && if env.site in {SecondVerification, SecondAdmission} then failure == Some(Outside)
         else if !CleanRows(payload, manifestId, events) then IsObjection(events, failure)
         else failure == if env.site in {Validating, Promoting} then Some(Outside) else None
    }

    // Readiness objects, and names something that is wrong.
    ghost predicate IsObjection(events: seq<RowEvent>, failure: Option<HandlerError>)
      reads this
    {
      && failure.Some? && failure.value.NotReady?
      && Explains(failure.value.reason, Contract(payload, manifestId, counts),
                  StagedFrom(payload.sourceId, events, |events|))
    }

    // The run answers for the row that ended it, or for what came behind the rows.
    ghost predicate Answers(events: seq<RowEvent>, failure: Option<HandlerError>)
      reads this, store
    {
      && (forall i :: EndsAt(env.site, payload.strict, events, i) ==> StoppedAt(events, i, failure))
      && (SparesRows(env.site, events) && RowsPass(events, payload.strict, |events|) ==> EndAnswers(events, failure))
    }

    lemma LoopAnswers(events: seq<RowEvent>, i: nat, failure: Option<HandlerError>)
      requires StoppedAt(events, i, failure)
      ensures Answers(events, failure)
      ensures !(SparesRows(env.site, events) && RowsPass(events, payload.strict, |events|))
    {
      GoesThroughExactly(env.site, payload.strict, events);
      if i < |events| {
        assert !GoesThrough(env.site, payload.strict, events, |events|);
      }
    }

    lemma SuccessIsDecided(events: seq<RowEvent>, failure: Option<HandlerError>)
      requires ReachesLoop() && Answers(events, failure)
      ensures failure.None? <==>
                && Undisturbed(env.site, events)
                && RowsPass(events, payload.strict, |events|) && CleanRows(payload, manifestId, events)
    {
      GoesThroughExactly(env.site, payload.strict, events);
      if !(SparesRows(env.site, events) && RowsPass(events, payload.strict, |events|)) {
        var i := EndOf(env.site, payload.strict, events);
        assert StoppedAt(events, i, failure);
      }
    }

    // After the loop: verify and admit again, then check readiness.
    method CheckReadiness(events: seq<RowEvent>) returns (failure: Option<HandlerError>)
      requires LoopInvariant(events, |events|)
      modifies this`counts, store`log
      ensures if env.site in {SecondVerification, SecondAdmission} then failure == Some(Outside)
              else if CleanRows(payload, manifestId, events) then failure.None?
              else IsObjection(events, failure)
      ensures failure.None? ==> store.log == CallsToReadiness(store.staged) && ReadyToPublish(events)
      ensures PromoteCalled !in store.log
    {
      ReadinessCallsDoNotPromote(store.staged);
      if env.site == SecondVerification {
        return Some(Outside);
      }
      store.Note(SnapshotVerified);
      if env.site == SecondAdmission {
        return Some(Outside);
      }
      store.Note(AdmissionPassed);
      assert store.log == CallsToReadiness(store.staged);
      if env.secondAdmissionWarns {
        counts := counts.(warningCount := counts.warningCount + 1);
      }
      ReadinessAfterLoop(payload, manifestId, counts, events, AdmissionWarnings(env, true));
      var ready := AssertPromotionReady(Contract(payload, manifestId, counts), stagedRecords);
      failure := if ready.Err? then Some(NotReady(ready.error)) else None;
    }

    // Validate, then promote: the last two calls.
    method Publish(events: seq<RowEvent>) returns (failure: Option<HandlerError>)
      requires store.status == Some(Processing)
      requires store.log == CallsToReadiness(store.staged) && ReadyToPublish(events)
      modifies store`status, store`log
      ensures Outcome(events)
      ensures failure.None? ==> store.status == Some(Promoted)
      ensures failure == if env.site in {Validating, Promoting} then Some(Outside) else None
      ensures failure.Some? && store.status == Some(Promoted) ==> env.site == Promoting && env.tookEffect
    {
      ReadinessCallsDoNotPromote(store.staged);
      store.MarkValidated(env.site != Validating || env.tookEffect);
      if env.site == Validating {
        return Some(Outside);
      }
      var ok := store.Promote(env.site != Promoting || env.tookEffect);
      return if ok && env.site != Promoting then None else Some(Outside);
    }

    // The guarded part of the handler.
    method StageAndPromote(events: seq<RowEvent>) returns (failure: Option<HandlerError>)
      requires LoopInvariant(events, 0)
      modifies this, store
      ensures Answers(events, failure)
      ensures Outcome(events)
      ensures failure.None? ==> store.status == Some(Promoted)
      ensures failure.Some? && store.status == Some(Promoted) ==> env.site == Promoting && env.tookEffect
    {
      failure := StageRows(events);
      ReadinessCallsDoNotPromote(store.staged);
      if failure.Some? {
        ghost var i :| StoppedAt(events, i, failure);
        LoopAnswers(events, i, failure);
        return;
      }
      GoesThroughExactly(env.site, payload.strict, events);
      failure := CheckReadiness(events);
      if failure.None? {
        failure := Publish(events);
      }
    }

    // Up to the row loop; a failure here is not marked.
    method Prepare(events: seq<RowEvent>) returns (failure: Option<HandlerError>)
      requires Untouched()
      modifies this`counts, store
      ensures failure.None? <==> ReachesLoop()
      ensures !Accepted() ==>
                && failure == Some(if jobSource != Some(payload.sourceId) then SourceMismatch else NoAdapter)
                && Untouched()
      ensures Accepted() && !ReachesLoop() ==>
                failure == Some(Outside) && store.staged == [] && store.log == CallsBeforeLoop(env.site)
      ensures if failure.None? then LoopInvariant(events, 0)
              else store.status != Some(Promoted) && PromoteCalled !in store.log
    {
      if jobSource != Some(payload.sourceId) {
        return Some(SourceMismatch);
      }
      if payload.sourceId !in adapters {
        return Some(NoAdapter);
      }
      if env.site == FirstAdmission {
        return Some(Outside);
      }
      store.Note(AdmissionPassed);
      if env.site == FirstVerification {
        return Some(Outside);
      }
      store.Note(SnapshotVerified);
      if env.site == Creating {
        return Some(Outside);
      }
      store.CreateManifest();
      store.MarkProcessing();
      assert store.log == Prologue();
      if env.site == MarkingProcessing {
        return Some(Outside);
      }
      if env.firstAdmissionWarns {
        counts := counts.(warningCount := counts.warningCount + 1);
      }
      return None;
    }

    // One job. Ok is the promoted result; an error is what the job queue sees.
    method Handle(events: seq<RowEvent>) returns (r: Result<ImportCounts, HandlerError>)
      requires Untouched()
      modifies this, store
      // promotion is the last call but a failure mark, and comes only after everything else went well
      ensures PromoteCalled in store.log ==>
                && (store.log == CallsToPromotion(store.staged)
                    || store.log == CallsToPromotion(store.staged) + [MarkedFailed])
                && ReadyToPublish(events)
      ensures r.Ok? ==>
                store.status == Some(Promoted) && store.log == CallsToPromotion(store.staged) && r.value == counts
      // another source's payload, or one that no adapter reads, is refused before anything is called
      ensures !Accepted() ==>
                && r == Err(if jobSource != Some(payload.sourceId) then SourceMismatch else NoAdapter)
                && Untouched()
      // a job succeeds exactly when it is accepted, no call of the outside fails it, and its rows are clean
      ensures r.Ok? <==>
                && Accepted() && Undisturbed(env.site, events)
                && RowsPass(events, payload.strict, |events|) && CleanRows(payload, manifestId, events)
      // a failure has the reason of the first row or call that failed; what was inserted by then stays
      ensures ReachesLoop() ==> Answers(events, if r.Ok? then None else Some(r.error))
      ensures Accepted() && !ReachesLoop() ==>
                r == Err(Outside) && store.staged == [] && store.log == CallsBeforeLoop(env.site)
      // a failure of the loop or of anything after it reaches markFailed, which never demotes
      ensures r.Err? && ReachesLoop() ==>
                && store.log != [] && store.log[|store.log| - 1] == MarkedFailed
                && (store.status == Some(Promoted) || env.markFailedThrows || store.status == Some(Failed))
      ensures store.status == Some(Promoted) ==> PromoteCalled in store.log
      ensures store.status == Some(Promoted) && r.Err? ==> env.site == Promoting && env.tookEffect
    {
      var failure := Prepare(events);
      if failure.Some? {
        return Err(failure.value);
      }
      failure := StageAndPromote(events);
      SuccessIsDecided(events, failure);
      if failure.None? {
        return Ok(counts);
      }
      ghost var calls := store.log;
      store.MarkFailed(!env.markFailedThrows);
      assert PromoteCalled in store.log ==> PromoteCalled in calls;
      return Err(failure.value);
    }
  }
}
