// What a snapshot import makes of the rows of its stream: the records it lists for the readiness check
// and the ones it inserts into the database, which name their own source.
module ImportRows {
  import opened Wrappers
  import opened Promotion

  datatype Payload = Payload(
    sourceId: string, sourceSnapshotId: string, adapterPackage: string, adapterVersion: string, strict: bool)

  // What normalize makes of a raw row, as far as staging reads it. The source is the adapter's word.
  datatype Normalized = Normalized(sourceId: string, key: string, fingerprint: string)

  // The adapter stream: reported errors, raw rows (None: normalize throws), or an exception.
  datatype RowEvent = Complaint | Raw(warningCount: nat, record: Option<Normalized>) | Broken

  datatype ImportCounts = ImportCounts(
    rawRecordCount: nat, normalizedRecordCount: nat, duplicateRecordCount: nat, warningCount: nat, errorCount: nat)

  // ----- what the rows amount to -----

  function KeySet(records: seq<StagedRecord>): set<string> {
    set r | r in records :: r.sourceRecordKey
  }

  function Inserted(record: Normalized): StagedRecord {
    StagedRecord(record.sourceId, record.key, record.fingerprint)
  }

  // The records inserted for the first n events: the first record of every key.
  function InsertedFrom(events: seq<RowEvent>, n: nat): seq<StagedRecord>
    requires n <= |events|
  {
    if n == 0 then []
    else
      var before := InsertedFrom(events, n - 1);
      match events[n - 1]
      case Raw(_, Some(record)) => if record.key in KeySet(before) then before else before + [Inserted(record)]
      case _ => before
  }

  // The same records under the source of the payload.
  function ListedAs(sourceId: string, records: seq<StagedRecord>): (r: seq<StagedRecord>)
    ensures |r| == |records| && forall i :: 0 <= i < |r| ==> r[i] == records[i].(sourceId := sourceId)
  {
    seq(|records|, i requires 0 <= i < |records| => records[i].(sourceId := sourceId))
  }

  // What the handler hands to the readiness check.
  function StagedFrom(sourceId: string, events: seq<RowEvent>, n: nat): seq<StagedRecord>
    requires n <= |events|
  {
    ListedAs(sourceId, InsertedFrom(events, n))
  }

  function RawRows(events: seq<RowEvent>, n: nat): nat
    requires n <= |events|
  {
    if n == 0 then 0 else RawRows(events, n - 1) + if events[n - 1].Raw? then 1 else 0
  }

  function FailedRows(events: seq<RowEvent>, n: nat): nat
    requires n <= |events|
  {
    if n == 0 then 0 else FailedRows(events, n - 1) + if events[n - 1].Raw? && events[n - 1].record.None? then 1 else 0
  }

  function Complaints(events: seq<RowEvent>, n: nat): nat
    requires n <= |events|
  {
    if n == 0 then 0 else Complaints(events, n - 1) + if events[n - 1].Complaint? then 1 else 0
  }

  function RowWarnings(events: seq<RowEvent>, n: nat): nat
    requires n <= |events|
  {
    if n == 0 then 0 else RowWarnings(events, n - 1) + if events[n - 1].Raw? then events[n - 1].warningCount else 0
  }

  // ----- laws -----

  lemma OneMoreKey(records: seq<StagedRecord>, record: StagedRecord)
    ensures KeySet(records + [record]) == KeySet(records) + {record.sourceRecordKey}
  {
  }

  lemma OneMoreListed(sourceId: string, records: seq<StagedRecord>, record: StagedRecord)
    ensures ListedAs(sourceId, records + [record]) == ListedAs(sourceId, records) + [record.(sourceId := sourceId)]
  {
  }

  lemma {:induction false} InsertedKeysDiffer(events: seq<RowEvent>, n: nat)
    requires n <= |events|
    ensures DistinctRecords(InsertedFrom(events, n))
  {
    if n > 0 {
      var before, now := InsertedFrom(events, n - 1), InsertedFrom(events, n);
      InsertedKeysDiffer(events, n - 1);
      if now != before {
        forall i | 0 <= i < |before| ensures before[i].sourceRecordKey != now[|before|].sourceRecordKey {
          assert before[i] in before;
        }
      }
    }
  }

  // The list has the payload's source by construction.
  lemma StagedRecordsAreIndexable(sourceId: string, events: seq<RowEvent>, n: nat)
    requires n <= |events|
    ensures Indexable(StagedFrom(sourceId, events, n), sourceId)
  {
    InsertedKeysDiffer(events, n);
  }

  predicate HasKey(e: RowEvent, key: string) {
    e.Raw? && e.record.Some? && e.record.value.key == key
  }

  // Row i is the first with the record's key, and brings this record.
  predicate BringsFirst(events: seq<RowEvent>, i: nat, r: StagedRecord)
    requires i < |events|
  {
    && HasKey(events[i], r.sourceRecordKey)
    && events[i].record == Some(Normalized(r.sourceId, r.sourceRecordKey, r.fingerprint))
    && forall j :: 0 <= j < i ==> !HasKey(events[j], r.sourceRecordKey)
  }

  lemma {:induction false} InsertedKeysAre(events: seq<RowEvent>, n: nat, key: string)
    requires n <= |events|
    ensures key in KeySet(InsertedFrom(events, n)) <==> exists i :: 0 <= i < n && HasKey(events[i], key)
  {
    if n > 0 {
      var before := InsertedFrom(events, n - 1);
      InsertedKeysAre(events, n - 1, key);
      if events[n - 1].Raw? && events[n - 1].record.Some? {
        OneMoreKey(before, Inserted(events[n - 1].record.value));
      }
    }
  }

  // The n-th row adds what it brings first.
  lemma OneMoreFirst(events: seq<RowEvent>, n: nat, r: StagedRecord)
    requires 0 < n <= |events|
    ensures r in InsertedFrom(events, n) <==> r in InsertedFrom(events, n - 1) || BringsFirst(events, n - 1, r)
  {
    InsertedKeysAre(events, n - 1, r.sourceRecordKey);
  }

  // Exactly the first record of each key is inserted, as the row has it.
  lemma {:induction false} FirstOccurrenceIsInserted(events: seq<RowEvent>, n: nat, r: StagedRecord)
    requires n <= |events|
    ensures r in InsertedFrom(events, n) <==> exists i :: 0 <= i < n && BringsFirst(events, i, r)
  {
    if n > 0 {
      FirstOccurrenceIsInserted(events, n - 1, r);
      OneMoreFirst(events, n, r);
    }
  }

  // Exactly the first record of each key is listed, under the payload's source.
  lemma FirstOccurrenceIsStaged(sourceId: string, events: seq<RowEvent>, n: nat, r: StagedRecord)
    requires n <= |events|
    ensures r in StagedFrom(sourceId, events, n)
            <==> r.sourceId == sourceId && exists i, own :: 0 <= i < n && BringsFirst(events, i, r.(sourceId := own))
  {
    var inserted, listed := InsertedFrom(events, n), StagedFrom(sourceId, events, n);
    if r in listed {
      var k :| 0 <= k < |listed| && listed[k] == r;
      FirstOccurrenceIsInserted(events, n, inserted[k]);
      var i :| 0 <= i < n && BringsFirst(events, i, inserted[k]);
      assert BringsFirst(events, i, r.(sourceId := inserted[k].sourceId));
    }
    if i, own :| 0 <= i < n && BringsFirst(events, i, r.(sourceId := own)) {
      FirstOccurrenceIsInserted(events, n, r.(sourceId := own));
      var k :| 0 <= k < |inserted| && inserted[k] == r.(sourceId := own);
      assert r.sourceId == sourceId ==> listed[k] == r;
    }
  }

  // Every first record names this source.
  ghost predicate OfSource(events: seq<RowEvent>, n: nat, sourceId: string)
    requires n <= |events|
  {
    forall i, r :: 0 <= i < n && BringsFirst(events, i, r) ==> r.sourceId == sourceId
  }

  // What is listed is what is inserted exactly when every first record names the payload's source.
  lemma ListIsInsertedExactly(sourceId: string, events: seq<RowEvent>, n: nat)
    requires n <= |events|
    ensures StagedFrom(sourceId, events, n) == InsertedFrom(events, n) <==> OfSource(events, n, sourceId)
    ensures Indexable(InsertedFrom(events, n), sourceId) <==> OfSource(events, n, sourceId)
  {
    var inserted, listed := InsertedFrom(events, n), StagedFrom(sourceId, events, n);
    InsertedKeysDiffer(events, n);
    if OfSource(events, n, sourceId) {
      forall k | 0 <= k < |inserted| ensures listed[k] == inserted[k] && inserted[k].sourceId == sourceId {
        FirstOccurrenceIsInserted(events, n, inserted[k]);
      }
    }
    if forall k :: 0 <= k < |inserted| ==> inserted[k].sourceId == sourceId {
      forall i, r | 0 <= i < n && BringsFirst(events, i, r) ensures r.sourceId == sourceId {
        FirstOccurrenceIsInserted(events, n, r);
      }
    } else {
      var k :| 0 <= k < |inserted| && inserted[k].sourceId != sourceId;
      assert listed[k] != inserted[k];
    }
  }

  // ----- what is counted -----

  // The rows before n of this kind.
  function RowsThat(events: seq<RowEvent>, n: nat, kind: RowEvent -> bool): set<nat>
    requires n <= |events|
  {
    set i: nat | i < n && kind(events[i])
  }

  // Every warning of a raw row before n, by its row and its place there.
  function WarningsOf(events: seq<RowEvent>, n: nat): set<(nat, nat)>
    requires n <= |events|
  {
    set i: nat, k: nat | i < n && events[i].Raw? && k < events[i].warningCount :: (i, k)
  }

  // The keys that some row before n brings.
  function KeysBrought(events: seq<RowEvent>, n: nat): set<string>
    requires n <= |events|
  {
    set i: nat | i < n && events[i].Raw? && events[i].record.Some? :: events[i].record.value.key
  }

  lemma OneMoreThat(events: seq<RowEvent>, n: nat, kind: RowEvent -> bool)
    requires n < |events|
    ensures |RowsThat(events, n + 1, kind)| == |RowsThat(events, n, kind)| + if kind(events[n]) then 1 else 0
  {
    assert RowsThat(events, n + 1, kind) == RowsThat(events, n, kind) + if kind(events[n]) then {n} else {};
  }

  lemma {:induction false} RowOfPairs(n: nat, most: nat)
    ensures |set k: nat | k < most :: (n, k)| == most
  {
    if most > 0 {
      RowOfPairs(n, most - 1);
      assert (set k: nat | k < most :: (n, k)) == (set k: nat | k < most - 1 :: (n, k)) + {(n, most - 1)};
    }
  }

  lemma OneMoreWarned(events: seq<RowEvent>, n: nat)
    requires n < |events|
    ensures |WarningsOf(events, n + 1)|
            == |WarningsOf(events, n)| + if events[n].Raw? then events[n].warningCount else 0
  {
    var most := if events[n].Raw? then events[n].warningCount else 0;
    var own := set k: nat | k < most :: (n, k);
    RowOfPairs(n, most);
    assert WarningsOf(events, n + 1) == WarningsOf(events, n) + own;
  }

  // The counts are numbers of rows, of warnings and of different keys.
  lemma {:induction false} CountsAreNumbersOf(events: seq<RowEvent>, n: nat)
    requires n <= |events|
    ensures RawRows(events, n) == |RowsThat(events, n, (e: RowEvent) => e.Raw?)|
    ensures FailedRows(events, n) == |RowsThat(events, n, (e: RowEvent) => e.Raw? && e.record.None?)|
    ensures Complaints(events, n) == |RowsThat(events, n, (e: RowEvent) => e.Complaint?)|
    ensures RowWarnings(events, n) == |WarningsOf(events, n)|
  {
    if n > 0 {
      CountsAreNumbersOf(events, n - 1);
      OneMoreThat(events, n - 1, (e: RowEvent) => e.Raw?);
      OneMoreThat(events, n - 1, (e: RowEvent) => e.Raw? && e.record.None?);
      OneMoreThat(events, n - 1, (e: RowEvent) => e.Complaint?);
      OneMoreWarned(events, n - 1);
    }
  }

  lemma {:induction false} InsertedCountsKeys(events: seq<RowEvent>, n: nat)
    requires n <= |events|
    ensures KeysBrought(events, n) == KeySet(InsertedFrom(events, n))
    ensures |InsertedFrom(events, n)| == |KeysBrought(events, n)|
  {
    if n > 0 {
      InsertedCountsKeys(events, n - 1);
      var e := events[n - 1];
      var own := if e.Raw? && e.record.Some? then {e.record.value.key} else {};
      assert KeysBrought(events, n) == KeysBrought(events, n - 1) + own;
      if e.Raw? && e.record.Some? {
        OneMoreKey(InsertedFrom(events, n - 1), Inserted(e.record.value));
      }
    }
  }

  // What the counts of a loop say of its rows.
  lemma CountsTellRows(counts: ImportCounts, events: seq<RowEvent>, n: nat, admissionWarnings: nat)
    requires n <= |events| && CountsFor(counts, events, n, admissionWarnings)
    ensures counts.rawRecordCount == |RowsThat(events, n, (e: RowEvent) => e.Raw?)|
    ensures counts.normalizedRecordCount == |KeysBrought(events, n)|
    ensures counts.warningCount == admissionWarnings + |WarningsOf(events, n)|
    ensures counts.errorCount == |RowsThat(events, n, (e: RowEvent) => e.Complaint?)|
                                 + |RowsThat(events, n, (e: RowEvent) => e.Raw? && e.record.None?)|
    ensures counts.duplicateRecordCount + counts.normalizedRecordCount
            == |RowsThat(events, n, (e: RowEvent) => e.Raw?)|
               - |RowsThat(events, n, (e: RowEvent) => e.Raw? && e.record.None?)|
  {
    CountsAreNumbersOf(events, n);
    InsertedCountsKeys(events, n);
  }

  // ----- readiness -----

  function Contract(p: Payload, manifestId: string, counts: ImportCounts): Manifest {
    Manifest(manifestId, p.sourceId, p.sourceSnapshotId, p.adapterPackage, p.adapterVersion, Validated,
             counts.rawRecordCount, counts.normalizedRecordCount, counts.duplicateRecordCount,
             counts.warningCount, counts.errorCount, [])
  }

  predicate ValidPayload(p: Payload, manifestId: string) {
    manifestId != "" && p.sourceId != "" && p.sourceSnapshotId != "" && p.adapterPackage != "" && p.adapterVersion != ""
  }

  // No row before n throws out of the loop by itself.
  ghost predicate RowsPass(events: seq<RowEvent>, strict: bool, n: nat)
    requires n <= |events|
  {
    forall i :: 0 <= i < n ==> !events[i].Broken? && (strict && events[i].Raw? ==> events[i].record.Some?)
  }

  // The rows give nothing that readiness objects to.
  ghost predicate CleanRows(p: Payload, manifestId: string, events: seq<RowEvent>) {
    && ValidPayload(p, manifestId)
    && Complaints(events, |events|) == 0 && FailedRows(events, |events|) == 0
    && ValidRecords(StagedFrom(p.sourceId, events, |events|))
  }

  // The counts of a loop that took the first n events, none of which ended it, under so many
  // warnings of the storage admission.
  ghost predicate CountsFor(counts: ImportCounts, events: seq<RowEvent>, n: nat, admissionWarnings: nat)
    requires n <= |events|
  {
    && counts.warningCount == admissionWarnings + RowWarnings(events, n)
    && counts.rawRecordCount == RawRows(events, n)
    && counts.normalizedRecordCount == |InsertedFrom(events, n)|
    && counts.errorCount == Complaints(events, n) + FailedRows(events, n)
    && counts.rawRecordCount == counts.normalizedRecordCount + counts.duplicateRecordCount + FailedRows(events, n)
  }

  // What the n-th row adds to the counts and to the database.
  function RowCounted(counts: ImportCounts, e: RowEvent, known: bool): ImportCounts
    requires !e.Broken?
  {
    match e
    case Complaint => counts.(errorCount := counts.errorCount + 1)
    case Raw(warningCount, record) =>
      var read := counts.(rawRecordCount := counts.rawRecordCount + 1,
                          warningCount := counts.warningCount + warningCount);
      if record.None? then read.(errorCount := read.errorCount + 1)
      else if known then read.(duplicateRecordCount := read.duplicateRecordCount + 1)
      else read.(normalizedRecordCount := read.normalizedRecordCount + 1)
  }

  lemma OneMoreRow(counts: ImportCounts, events: seq<RowEvent>, n: nat, admissionWarnings: nat)
    requires n < |events| && !events[n].Broken? && CountsFor(counts, events, n, admissionWarnings)
    ensures var before := InsertedFrom(events, n);
            var brings := events[n].Raw? && events[n].record.Some?;
            var known := brings && events[n].record.value.key in KeySet(before);
            && CountsFor(RowCounted(counts, events[n], known), events, n + 1, admissionWarnings)
            && InsertedFrom(events, n + 1)
               == if brings && !known then before + [Inserted(events[n].record.value)] else before
  {
  }

  // After a loop, readiness asks for nothing but an error-free count and well-formed records: the
  // keys, the source and the number of listed records are right by construction.
  lemma ReadinessAfterLoop(
    p: Payload, manifestId: string, counts: ImportCounts, events: seq<RowEvent>, admissionWarnings: nat)
    requires CountsFor(counts, events, |events|, admissionWarnings)
    ensures Ready(Contract(p, manifestId, counts), StagedFrom(p.sourceId, events, |events|))
            <==> CleanRows(p, manifestId, events)
    ensures counts.errorCount == 0
            ==> counts.rawRecordCount == counts.normalizedRecordCount + counts.duplicateRecordCount
  {
    StagedRecordsAreIndexable(p.sourceId, events, |events|);
    ManifestIsFilled(Contract(p, manifestId, counts));
  }
}
