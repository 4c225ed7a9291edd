// The job handler and the promotion transaction together: what a successful import publishes, and what
// becomes of records that name another source than their job.
module PromotedImport {
  import opened Wrappers
  import opened Promotion
  import opened ImportRows
  import opened CurrentRecords
  import opened ImportHandler

  // The inserted records as the database keeps them, by source record key.
  function VersionsFrom(records: seq<StagedRecord>): map<string, Version> {
    if records == [] then map[]
    else
      var last := records[|records| - 1];
      VersionsFrom(records[..|records| - 1])[last.sourceRecordKey := Version(last.sourceId, last.fingerprint)]
  }

  predicate IsVersion(versions: map<string, Version>, r: StagedRecord) {
    r.sourceRecordKey in versions && versions[r.sourceRecordKey] == Version(r.sourceId, r.fingerprint)
  }

  lemma {:induction false} VersionsAre(records: seq<StagedRecord>, r: StagedRecord)
    requires DistinctRecords(records)
    ensures IsVersion(VersionsFrom(records), r) <==> r in records
    ensures r.sourceRecordKey in VersionsFrom(records)
            <==> exists i :: 0 <= i < |records| && records[i].sourceRecordKey == r.sourceRecordKey
  {
    if records != [] {
      var last, front := records[|records| - 1], records[..|records| - 1];
      VersionsAre(front, r);
      assert records == front + [last];
    }
  }

  // The database when the handler calls promote: a validated manifest with the inserted records.
  ghost predicate AwaitsPromotion(p: Platform, id: int, sourceId: string, events: seq<RowEvent>) {
    && id in p.manifests && p.manifests[id] == ManifestRow(sourceId, Validated)
    && VersionsOf(p, id) == VersionsFrom(InsertedFrom(events, |events|))
    && PublishedByPromotion(p)
  }

  lemma InsertedVersion(p: Platform, id: int, sourceId: string, events: seq<RowEvent>, r: StagedRecord)
    requires AwaitsPromotion(p, id, sourceId, events)
    ensures IsVersion(VersionsOf(p, id), r) <==> exists i :: 0 <= i < |events| && BringsFirst(events, i, r)
  {
    InsertedKeysDiffer(events, |events|);
    VersionsAre(InsertedFrom(events, |events|), r);
    FirstOccurrenceIsInserted(events, |events|, r);
  }

  lemma StagedForSourceMeansOfSource(p: Platform, id: int, sourceId: string, events: seq<RowEvent>)
    requires AwaitsPromotion(p, id, sourceId, events)
    ensures StagedForSource(p, id, sourceId) <==> OfSource(events, |events|, sourceId)
  {
    if StagedForSource(p, id, sourceId) {
      forall i, r | 0 <= i < |events| && BringsFirst(events, i, r) ensures r.sourceId == sourceId {
        InsertedVersion(p, id, sourceId, events, r);
      }
    }
    if OfSource(events, |events|, sourceId) {
      forall key | key in VersionsOf(p, id) ensures VersionsOf(p, id)[key].sourceId == sourceId {
        var v := VersionsOf(p, id)[key];
        InsertedVersion(p, id, sourceId, events, StagedRecord(v.sourceId, key, v.fingerprint));
      }
    }
  }

  // Main theorem: after a successful import its source publishes exactly the first record of each key that
  // names this source; other sources are left alone exactly when no first record names one of them.
  lemma ImportPublishesFirstOccurrences(p: Platform, id: int, sourceId: string, events: seq<RowEvent>, r: StagedRecord)
    requires AwaitsPromotion(p, id, sourceId, events) && r.sourceId == sourceId
    ensures PromoteImport(p, id).Ok?
    ensures var p' := PromoteImport(p, id).value;
            && (At(Published(p', sourceId), r.sourceRecordKey) == Some(r.fingerprint)
                <==> exists i :: 0 <= i < |events| && BringsFirst(events, i, r))
            && (OthersUntouched(p, p', sourceId) <==> OfSource(events, |events|, sourceId))
  {
    PromotionPublishesStaged(p, id);
    StagedForSourceMeansOfSource(p, id, sourceId, events);
    InsertedVersion(p, id, sourceId, events, r);
  }

  // ----- the job and the transaction together -----

  // The source publishes exactly the first records that name it; the other sources are left alone exactly
  // when no first record names one of them.
  ghost predicate PublishesFirsts(p: Platform, p': Platform, sourceId: string, events: seq<RowEvent>) {
    && (forall r: StagedRecord | r.sourceId == sourceId ::
          At(Published(p', sourceId), r.sourceRecordKey) == Some(r.fingerprint)
          <==> exists i :: 0 <= i < |events| && BringsFirst(events, i, r))
    && (OthersUntouched(p, p', sourceId) <==> OfSource(events, |events|, sourceId))
  }

  // The database with the job's manifest row and its inserted records.
  function WithManifest(p: Platform, id: int, row: ManifestRow, records: seq<StagedRecord>): Platform {
    p.(manifests := p.manifests[id := row], versions := p.versions[id := VersionsFrom(records)])
  }

  // Only what is current matters to the other sources, not the job's manifest row and records.
  lemma OthersDependOnCurrent(p: Platform, before: Platform, p': Platform, sourceId: string)
    requires p.current == before.current
    ensures OthersUntouched(p, p', sourceId) <==> OthersUntouched(before, p', sourceId)
  {
  }

  lemma PromotionPublishesFirsts(p: Platform, id: int, sourceId: string, events: seq<RowEvent>, p': Platform)
    requires AwaitsPromotion(p, id, sourceId, events) && PromoteImport(p, id) == Ok(p')
    ensures PublishesFirsts(p, p', sourceId, events)
  {
    forall r: StagedRecord | r.sourceId == sourceId
      ensures At(Published(p', sourceId), r.sourceRecordKey) == Some(r.fingerprint)
              <==> exists i :: 0 <= i < |events| && BringsFirst(events, i, r)
    {
      ImportPublishesFirstOccurrences(p, id, sourceId, events, r);
    }
    ImportPublishesFirstOccurrences(p, id, sourceId, events, StagedRecord(sourceId, "", ""));
  }

  lemma CurrentDecidesFirsts(
    p: Platform, before: Platform, p': Platform, sourceId: string, events: seq<RowEvent>)
    requires p.current == before.current && PublishesFirsts(before, p', sourceId, events)
    ensures PublishesFirsts(p, p', sourceId, events)
  {
    OthersDependOnCurrent(p, before, p', sourceId);
  }

  lemma PromotionOfJob(p: Platform, id: int, sourceId: string, events: seq<RowEvent>) returns (p': Platform)
    requires id !in p.manifests && PublishedByPromotion(p)
    ensures var row := ManifestRow(sourceId, Validated);
            PromoteImport(WithManifest(p, id, row, InsertedFrom(events, |events|)), id) == Ok(p')
    ensures PublishesFirsts(p, p', sourceId, events)
  {
    var before := WithManifest(p, id, ManifestRow(sourceId, Validated), InsertedFrom(events, |events|));
    assert AwaitsPromotion(before, id, sourceId, events);
    p' := PromoteImport(before, id).value;
    PromotionPublishesFirsts(before, id, sourceId, events, p');
    CurrentDecidesFirsts(p, before, p', sourceId, events);
  }

  // Main theorem: one job on the database, with a new manifest id. If its manifest ends promoted, the source
  // publishes the first records of the file; otherwise nothing that anybody publishes has changed. A job
  // that reports success has promoted, and one that reports failure has not - except when the failing
  // call was the promotion itself and it took effect.
  method RunJob(job: SnapshotImport, p: Platform, id: int, events: seq<RowEvent>)
    returns (r: Result<ImportCounts, HandlerError>, p': Platform)
    requires job.Untouched() && id !in p.manifests && PublishedByPromotion(p)
    modifies job, job.store
    ensures job.store.status == Some(Promoted) ==>
              PublishesFirsts(p, p', job.payload.sourceId, events) && id in p'.manifests
              && p'.manifests[id] == ManifestRow(job.payload.sourceId, Promoted)
    ensures job.store.status != Some(Promoted) ==> p'.current == p.current && p'.changes == p.changes
    ensures r.Ok? ==> job.store.status == Some(Promoted)
    ensures r.Err? && job.store.status == Some(Promoted) ==> job.env.site == Promoting && job.env.tookEffect
    ensures r.Ok? <==>
              && job.Accepted() && Undisturbed(job.env.site, events)
              && RowsPass(events, job.payload.strict, |events|) && CleanRows(job.payload, job.manifestId, events)
  {
    r := job.Handle(events);
    var sourceId, status := job.payload.sourceId, job.store.status;
    if status == Some(Promoted) {
      ghost var _ := PromotionOfJob(p, id, sourceId, events);
      var promoted := PromoteImport(WithManifest(p, id, ManifestRow(sourceId, Validated), job.store.staged), id);
      p' := promoted.value;
    } else if status.Some? {
      p' := WithManifest(p, id, ManifestRow(sourceId, status.value), job.store.staged);
    } else {
      p' := p;
    }
  }

  // ----- records of another source -----

  function Renamed(e: RowEvent, sourceId: string): RowEvent {
    if e.Raw? && e.record.Some? then e.(record := Some(e.record.value.(sourceId := sourceId))) else e
  }

  function RenamedAll(events: seq<RowEvent>, sourceId: string): (r: seq<RowEvent>)
    ensures |r| == |events| && forall i :: 0 <= i < |r| ==> r[i] == Renamed(events[i], sourceId)
  {
    seq(|events|, i requires 0 <= i < |events| => Renamed(events[i], sourceId))
  }

  lemma {:induction false} ListIgnoresSource(events: seq<RowEvent>, named: string, sourceId: string, n: nat)
    requires n <= |events|
    ensures var other := RenamedAll(events, named);
            && KeySet(InsertedFrom(other, n)) == KeySet(InsertedFrom(events, n))
            && StagedFrom(sourceId, other, n) == StagedFrom(sourceId, events, n)
            && Complaints(other, n) == Complaints(events, n) && FailedRows(other, n) == FailedRows(events, n)
  {
    if n > 0 {
      ListIgnoresSource(events, named, sourceId, n - 1);
      if events[n - 1].Raw? && events[n - 1].record.Some? {
        var other, e := RenamedAll(events, named), events[n - 1].record.value;
        OneMoreKey(InsertedFrom(events, n - 1), Inserted(e));
        OneMoreKey(InsertedFrom(other, n - 1), Inserted(e.(sourceId := named)));
        OneMoreListed(sourceId, InsertedFrom(events, n - 1), Inserted(e));
        OneMoreListed(sourceId, InsertedFrom(other, n - 1), Inserted(e.(sourceId := named)));
      }
    }
  }

  // The job's success does not depend on the sources that its records name.
  lemma SuccessIgnoresSource(payload: Payload, manifestId: string, events: seq<RowEvent>, named: string)
    ensures CleanRows(payload, manifestId, RenamedAll(events, named)) <==> CleanRows(payload, manifestId, events)
    ensures RowsPass(RenamedAll(events, named), payload.strict, |events|)
            <==> RowsPass(events, payload.strict, |events|)
  {
    var other := RenamedAll(events, named);
    ListIgnoresSource(events, named, payload.sourceId, |events|);
    assert forall i :: 0 <= i < |events| ==>
      (other[i].Broken? <==> events[i].Broken?) && (other[i].Raw? <==> events[i].Raw?)
      && (events[i].Raw? ==> (other[i].record.Some? <==> events[i].record.Some?));
  }

  // A first record of another source becomes that source's current record, and the job's own record of
  // this key is gone.
  lemma ForeignRecordTakesOver(p: Platform, id: int, sourceId: string, events: seq<RowEvent>, i: nat, r: StagedRecord)
    requires AwaitsPromotion(p, id, sourceId, events)
    requires i < |events| && BringsFirst(events, i, r) && r.sourceId != sourceId
    ensures var p' := PromoteImport(p, id).value;
            && RecordKey(r.sourceId, r.sourceRecordKey) in p'.current
            && p'.current[RecordKey(r.sourceId, r.sourceRecordKey)] == Current(r.fingerprint, id)
            && RecordKey(sourceId, r.sourceRecordKey) !in p'.current
  {
    InsertedVersion(p, id, sourceId, events, r);
    ForeignVersionTakesOver(p, id, r.sourceRecordKey);
  }

  // Such a job exists for any two sources: one clean row that names the other one.
  lemma ForeignRowSucceeds(payload: Payload, manifestId: string, named: string, key: string, fingerprint: string)
    requires ValidPayload(payload, manifestId) && key != "" && IsFingerprint(fingerprint) && named != payload.sourceId
    ensures var events := [Raw(0, Some(Normalized(named, key, fingerprint)))];
            && RowsPass(events, payload.strict, 1) && CleanRows(payload, manifestId, events)
            && BringsFirst(events, 0, StagedRecord(named, key, fingerprint)) && !OfSource(events, 1, payload.sourceId)
  {
    var events := [Raw(0, Some(Normalized(named, key, fingerprint)))];
    assert InsertedFrom(events, 0) == [];
    assert InsertedFrom(events, 1) == [StagedRecord(named, key, fingerprint)];
    assert Complaints(events, 0) == 0 && FailedRows(events, 0) == 0;
    assert BringsFirst(events, 0, StagedRecord(named, key, fingerprint));
  }
}
