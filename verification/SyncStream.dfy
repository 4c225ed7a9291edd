// The CSV stream and the import loop put together: what sync does with the events of the generator
// is what the loop over the file's slots does.
module SyncStream {
  import opened Wrappers
  import opened Records
  import opened SqliteCache
  import opened RegistrySync
  import opened RowOutcomes
  import opened ResumableImport
  import opened ResumeEquivalence
  import opened CsvStream

  // What fingerprinting, warnings and normalize make of a mapped record.
  datatype Classified = Classified(fingerprint: string, warningCount: nat, outcome: Option<Record>)

  function SlotOf<T>(role: Role<T>, classify: T -> Classified): Slot {
    match role
    case Blank => Quiet
    case BadCsv => Malformed
    case Header(accepted) => if accepted then Quiet else Refused
    case BadFields => Unmappable
    case Mapped(record) => GoodSlot(classify(record))
  }

  function GoodSlot(c: Classified): Slot {
    Good(c.fingerprint, c.warningCount, c.outcome)
  }

  function SlotsOf<T>(roles: seq<Role<T>>, classify: T -> Classified): (slots: seq<Slot>)
    ensures |slots| == |roles| && forall i :: 0 <= i < |roles| ==> slots[i] == SlotOf(roles[i], classify)
  {
    seq(|roles|, i requires 0 <= i < |roles| => SlotOf(roles[i], classify))
  }

  // The body of the for-await loop, the error callback, and an exception of the generator.
  function Handle<T>(o: Options, e: StreamEvent<T>, classify: T -> Classified, s: LoopState): (r: Step)
    requires Ready(s)
    ensures !r.thrown ==> Ready(r.s)
  {
    match e
    case Threw => Step(true, s)
    case Reported(row) => StreamError(o, row, s)
    case Yielded(row, record) => Consume(o, row, GoodSlot(classify(record)), s)
  }

  function Feed<T>(o: Options, events: seq<StreamEvent<T>>, classify: T -> Classified, s: LoopState): Step
    requires Ready(s)
  {
    if events == [] then Step(false, s)
    else
      var r := Handle(o, events[0], classify, s);
      if r.thrown then r else Feed(o, events[1..], classify, r.s)
  }

  predicate StopsBefore(o: Options, row: nat) {
    o.stop == Stop(row, BeforeRow)
  }

  // The events from row i + 1 on, up to the row before which the environment raises an exception.
  function EventsUntilStop<T>(o: Options, roles: seq<Role<T>>, start: nat, i: nat): seq<StreamEvent<T>>
    requires i <= |roles|
    decreases |roles| - i
  {
    if StopsBefore(o, i + 1) then [Threw]
    else if i == |roles| then []
    else EventsOf(roles[i], i + 1, start) + (if Refuses(roles[i]) then [] else EventsUntilStop(o, roles, start, i + 1))
  }

  lemma {:induction false} WithoutStop<T>(o: Options, roles: seq<Role<T>>, start: nat, i: nat)
    requires i <= |roles| && (o.stop.Never? || o.stop.at != BeforeRow || o.stop.row > |roles| + 1)
    ensures EventsUntilStop(o, roles, start, i) == RowEvents(roles, start, i)
    decreases |roles| - i
  {
    if i < |roles| {
      WithoutStop(o, roles, start, i + 1);
    }
  }

  lemma FeedOne<T>(o: Options, e: StreamEvent<T>, rest: seq<StreamEvent<T>>, classify: T -> Classified, s: LoopState)
    requires Ready(s)
    ensures var r := Handle(o, e, classify, s);
            Feed(o, [e] + rest, classify, s) == if r.thrown then r else Feed(o, rest, classify, r.s)
  {
    assert ([e] + rest)[1..] == rest;
  }

  // One row: its event, if it has one, does what the slot does.
  lemma RowFeeds<T>(
    o: Options, role: Role<T>, row: nat, start: nat, rest: seq<StreamEvent<T>>, classify: T -> Classified, s: LoopState)
    requires Ready(s) && !StopsBefore(o, row)
    ensures var r := RowStep(o, row, SlotOf(role, classify), start, s);
            Feed(o, EventsOf(role, row, start) + rest, classify, s)
            == if r.thrown then r else Feed(o, rest, classify, r.s)
  {
    var events := EventsOf(role, row, start);
    if events == [] {
      assert events + rest == rest;
    } else {
      assert events == [events[0]];
      FeedOne(o, events[0], rest, classify, s);
    }
  }

  lemma {:induction false} LoopFeedsOnEvents<T>(
    o: Options, roles: seq<Role<T>>, classify: T -> Classified, pos: nat, start: nat, s: LoopState)
    requires pos <= |roles| && Ready(s)
    ensures Loop(o, SlotsOf(roles, classify), pos, start, s)
            == Feed(o, EventsUntilStop(o, roles, start, pos), classify, s)
    decreases |roles| - pos
  {
    var slots := SlotsOf(roles, classify);
    if StopsBefore(o, pos + 1) {
      assert Feed(o, [Threw], classify, s) == Step(true, s);
      if pos < |roles| {
        assert RowStep(o, pos + 1, slots[pos], start, s) == Step(true, s);
      }
    } else if pos < |roles| {
      var rest := if Refuses(roles[pos]) then [] else EventsUntilStop(o, roles, start, pos + 1);
      RowFeeds(o, roles[pos], pos + 1, start, rest, classify, s);
      var r := RowStep(o, pos + 1, slots[pos], start, s);
      if !r.thrown {
        LoopFeedsOnEvents(o, roles, classify, pos + 1, start, r.s);
      }
    }
  }

  // Main law: when the environment raises nothing between rows, the loop of sync over the slots of a
  // CSV file is its loop over what the generator streams from the resume row on.
  lemma SyncConsumesTheStream<T>(
      o: Options, cfg: Config<T>, lines: seq<CsvLine>, classify: T -> Classified, s: LoopState)
    requires Ready(s) && cfg.reportsErrors && cfg.limit == 0
    requires o.stop.Never? || o.stop.at != BeforeRow || o.stop.row > |lines| + 1
    ensures Loop(o, SlotsOf(Roles(cfg, lines), classify), 0, cfg.startAfterRow, s)
            == Feed(o, Stream(cfg, lines), classify, s)
  {
    LoopFeedsOnEvents(o, Roles(cfg, lines), classify, 0, cfg.startAfterRow, s);
    WithoutStop(o, Roles(cfg, lines), cfg.startAfterRow, 0);
    StreamIsRowByRow(cfg, lines, 0, 0);
  }

  // The fingerprint covers everything normalize looks at, and normalize keeps it.
  ghost predicate ContentDetermined<T(!new)>(classify: T -> Classified) {
    && (forall a :: classify(a).outcome.Some? ==> classify(a).outcome.value.fingerprint == classify(a).fingerprint)
    && (forall a, b :: classify(a).fingerprint == classify(b).fingerprint ==>
          classify(a).outcome == classify(b).outcome)
  }

  // Such adapters give files on which the results about resuming hold.
  lemma AdapterFilesAreConsistent<T(!new)>(roles: seq<Role<T>>, classify: T -> Classified)
    requires ContentDetermined(classify)
    ensures Consistent(SlotsOf(roles, classify))
  {
    var slots := SlotsOf(roles, classify);
    forall i | 0 <= i < |slots| && slots[i].Good? && slots[i].outcome.Some?
      ensures slots[i].outcome.value.fingerprint == slots[i].fingerprint
    {
      assert slots[i] == GoodSlot(classify(roles[i].record));
    }
    forall i, j | 0 <= i < |slots| && 0 <= j < |slots| && slots[i].Good? && slots[j].Good?
      ensures slots[i].fingerprint == slots[j].fingerprint ==> slots[i].outcome == slots[j].outcome
    {
      assert slots[i] == GoodSlot(classify(roles[i].record)) && slots[j] == GoodSlot(classify(roles[j].record));
    }
  }

  // The slots of a CSV file, as an adapter that streams it maps and classifies its lines.
  function CsvSource<T>(sha256: string, cfg: Config<T>, lines: seq<CsvLine>, classify: T -> Classified): SourceFile {
    SourceFile(sha256, SlotsOf(Roles(cfg, lines), classify))
  }

  // For such an adapter's CSV file, interrupting and resuming is as good as one call, whatever is in the file.
  lemma ResumingCsvImportEqualsOneCall<T(!new)>(
    sha256: string, cfg: Config<T>, lines: seq<CsvLine>, classify: T -> Classified, o: Options, c: CacheState,
    es: seq<Event>)
    requires ContentDetermined(classify)
    requires AllAllowed(o.target, CsvSource(sha256, cfg, lines, classify), c.db.records, c, es)
    requires c.txn.None? && o.target.runId !in c.db.runs && CanRestart(o.target, c, es)
    requires !o.resume && o.stop == Never && o.checkpointInterval >= 1
    requires Accepted(o.strict, CsvSource(sha256, cfg, lines, classify).slots, |lines|, 0)
    requires var db := RunEvents(c, es).db;
             o.target.runId in db.runs && db.runs[o.target.runId].status == Completed
    ensures var chained := RunEvents(c, es).db;
            var once := SyncOutcome(o, CsvSource(sha256, cfg, lines, classify), c).cache.db;
            && o.target.runId in once.runs && once.runs[o.target.runId].status == Completed
            && chained.records == once.records
            && chained.runs[o.target.runId].lastProcessedRow == once.runs[o.target.runId].lastProcessedRow
            && chained.runs[o.target.runId].rawCount == once.runs[o.target.runId].rawCount
  {
    AdapterFilesAreConsistent(Roles(cfg, lines), classify);
    InterruptAndResumeEqualsOneCall(o, CsvSource(sha256, cfg, lines, classify), c, es);
  }
}
