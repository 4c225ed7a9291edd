// promote_import: the transaction that publishes a validated import. It performs the promotion plan for
// the manifest's source - as far as the staged records name that source.
module CurrentRecords {
  import opened Wrappers
  import opened Promotion

  datatype ManifestRow = ManifestRow(sourceId: string, status: Status)

  datatype Version = Version(sourceId: string, fingerprint: string)

  datatype RecordKey = RecordKey(sourceId: string, key: string)

  datatype Current = Current(fingerprint: string, manifestId: int)

  // versions: the staged records of each manifest, by source record key.
  datatype Platform = Platform(
    manifests: map<int, ManifestRow>,
    versions: map<int, map<string, Version>>,
    current: map<RecordKey, Current>,
    changes: map<int, set<Action>>)

  datatype PromoteError = UnknownManifest | MustBeValidated

  function VersionsOf(p: Platform, id: int): map<string, Version> {
    if id in p.versions then p.versions[id] else map[]
  }

  function CurrentOf(p: Platform, v: Version, key: string): Option<string> {
    var at := RecordKey(v.sourceId, key);
    if at in p.current then Some(p.current[at].fingerprint) else None
  }

  // ----- the statements of the transaction, in order -----

  function StagedChanges(p: Platform, id: int): set<Action> {
    var next := VersionsOf(p, id);
    set key | key in next && CurrentOf(p, next[key], key) != Some(next[key].fingerprint) ::
      Action(key, if CurrentOf(p, next[key], key).None? then Added else Changed,
             CurrentOf(p, next[key], key), Some(next[key].fingerprint))
  }

  function RemovedChanges(p: Platform, id: int, sourceId: string): set<Action> {
    set at | at in p.current && at.sourceId == sourceId && at.key !in VersionsOf(p, id) ::
      Action(at.key, Removed, Some(p.current[at].fingerprint), None)
  }

  function Upserted(p: Platform, id: int): map<RecordKey, Current> {
    var next := VersionsOf(p, id);
    p.current + map key | key in next :: RecordKey(next[key].sourceId, key) := Current(next[key].fingerprint, id)
  }

  function Pruned(current: map<RecordKey, Current>, sourceId: string, id: int): map<RecordKey, Current> {
    map at | at in current && !(at.sourceId == sourceId && current[at].manifestId != id) :: current[at]
  }

  function PromoteImport(p: Platform, id: int): Result<Platform, PromoteError> {
    if id !in p.manifests then Err(UnknownManifest)
    else if p.manifests[id].status != Validated then Err(MustBeValidated)
    else
      var sourceId := p.manifests[id].sourceId;
      Ok(Platform(
           p.manifests[id := p.manifests[id].(status := Promoted)],
           p.versions,
           Pruned(Upserted(p, id), sourceId, id),
           p.changes[id := StagedChanges(p, id) + RemovedChanges(p, id, sourceId)]))
  }

  // ----- what it does -----

  // What a source publishes: key to fingerprint.
  function Published(p: Platform, sourceId: string): map<string, string> {
    map at | at in p.current && at.sourceId == sourceId :: at.key := p.current[at].fingerprint
  }

  function Staged(p: Platform, id: int): map<string, string> {
    map key | key in VersionsOf(p, id) :: VersionsOf(p, id)[key].fingerprint
  }

  // The staged versions that name this source.
  function StagedOf(p: Platform, id: int, sourceId: string): map<string, string> {
    map key | key in VersionsOf(p, id) && VersionsOf(p, id)[key].sourceId == sourceId ::
      VersionsOf(p, id)[key].fingerprint
  }

  // Nothing in the database asks for this.
  ghost predicate StagedForSource(p: Platform, id: int, sourceId: string) {
    forall key :: key in VersionsOf(p, id) ==> VersionsOf(p, id)[key].sourceId == sourceId
  }

  lemma PublishedAt(p: Platform, sourceId: string, key: string)
    ensures key in Published(p, sourceId) <==> RecordKey(sourceId, key) in p.current
    ensures key in Published(p, sourceId)
            ==> Published(p, sourceId)[key] == p.current[RecordKey(sourceId, key)].fingerprint
  {
    if RecordKey(sourceId, key) in p.current {
      assert RecordKey(sourceId, key).key in Published(p, sourceId);
    }
  }

  lemma UpsertedAt(p: Platform, id: int, at: RecordKey)
    ensures var staged := at.key in StagedOf(p, id, at.sourceId);
            && (at in Upserted(p, id) <==> staged || at in p.current)
            && (staged ==> Upserted(p, id)[at] == Current(StagedOf(p, id, at.sourceId)[at.key], id))
            && (!staged && at in p.current ==> Upserted(p, id)[at] == p.current[at])
  {
    var next := VersionsOf(p, id);
    var written := map key | key in next :: RecordKey(next[key].sourceId, key) := Current(next[key].fingerprint, id);
    if at.key in StagedOf(p, id, at.sourceId) {
      assert RecordKey(next[at.key].sourceId, at.key) in written;
    }
  }

  // Every current record was published by a promoted manifest.
  ghost predicate PublishedByPromotion(p: Platform) {
    forall at :: at in p.current ==>
      p.current[at].manifestId in p.manifests && p.manifests[p.current[at].manifestId].status == Promoted
  }

  ghost predicate CanPromote(p: Platform, id: int) {
    id in p.manifests && p.manifests[id].status == Validated && PublishedByPromotion(p)
  }

  // A current record afterwards: staged under its source, or untouched in another source.
  lemma CurrentAfterPromotion(p: Platform, id: int, at: RecordKey)
    requires CanPromote(p, id)
    ensures var p', staged := PromoteImport(p, id).value, at.key in StagedOf(p, id, at.sourceId);
            && (at in p'.current <==> staged || (at.sourceId != p.manifests[id].sourceId && at in p.current))
            && (at in p'.current ==>
                  p'.current[at] == if staged then Current(StagedOf(p, id, at.sourceId)[at.key], id) else p.current[at])
  {
    UpsertedAt(p, id, at);
  }

  function PublishedNext(p: Platform, id: int, sourceId: string): map<string, string>
    requires id in p.manifests
  {
    if sourceId == p.manifests[id].sourceId then StagedOf(p, id, sourceId)
    else Published(p, sourceId) + StagedOf(p, id, sourceId)
  }

  lemma PublishedNextAt(p: Platform, id: int, sourceId: string, key: string)
    requires CanPromote(p, id)
    ensures var p', next := PromoteImport(p, id).value, PublishedNext(p, id, sourceId);
            && (key in Published(p', sourceId) <==> key in next)
            && (key in next ==> Published(p', sourceId)[key] == next[key])
  {
    CurrentAfterPromotion(p, id, RecordKey(sourceId, key));
    PublishedAt(PromoteImport(p, id).value, sourceId, key);
    PublishedAt(p, sourceId, key);
  }

  lemma EqualMaps(a: map<string, string>, b: map<string, string>)
    requires forall key :: (key in a <==> key in b) && (key in b ==> a[key] == b[key])
    ensures a == b
  {
  }

  // For every source: the promoted one publishes what was staged in its name, any other one gains that.
  lemma PublishedAfterPromotion(p: Platform, id: int, sourceId: string)
    requires CanPromote(p, id)
    ensures Published(PromoteImport(p, id).value, sourceId) == PublishedNext(p, id, sourceId)
  {
    var now, next := Published(PromoteImport(p, id).value, sourceId), PublishedNext(p, id, sourceId);
    forall key ensures (key in now <==> key in next) && (key in next ==> now[key] == next[key]) {
      PublishedNextAt(p, id, sourceId, key);
    }
    EqualMaps(now, next);
  }

  lemma PublishedByPromotionIsKept(p: Platform, id: int)
    requires CanPromote(p, id)
    ensures PublishedByPromotion(PromoteImport(p, id).value)
  {
    var p' := PromoteImport(p, id).value;
    forall at | at in p'.current
      ensures p'.current[at].manifestId in p'.manifests && p'.manifests[p'.current[at].manifestId].status == Promoted
    {
      CurrentAfterPromotion(p, id, at);
    }
  }

  // No current record of another source is added, changed or taken over.
  ghost predicate OthersUntouched(p: Platform, p': Platform, sourceId: string) {
    forall at: RecordKey :: at.sourceId != sourceId ==>
      && (at in p'.current <==> at in p.current)
      && (at in p.current ==> p'.current[at] == p.current[at])
  }

  lemma OthersUntouchedExactly(p: Platform, id: int)
    requires CanPromote(p, id)
    ensures OthersUntouched(p, PromoteImport(p, id).value, p.manifests[id].sourceId)
            <==> StagedForSource(p, id, p.manifests[id].sourceId)
  {
    var sourceId, p' := p.manifests[id].sourceId, PromoteImport(p, id).value;
    if StagedForSource(p, id, sourceId) {
      forall at: RecordKey | at.sourceId != sourceId
        ensures (at in p'.current <==> at in p.current) && (at in p.current ==> p'.current[at] == p.current[at])
      {
        CurrentAfterPromotion(p, id, at);
      }
    } else {
      var key :| key in VersionsOf(p, id) && VersionsOf(p, id)[key].sourceId != sourceId;
      var at := RecordKey(VersionsOf(p, id)[key].sourceId, key);
      CurrentAfterPromotion(p, id, at);
      assert at in p'.current && p'.current[at].manifestId == id;
      assert at in p.current ==> p.current[at].manifestId != id;
      assert !OthersUntouched(p, p', sourceId);
    }
  }

  lemma StagedForSourceExactly(p: Platform, id: int, sourceId: string)
    ensures StagedOf(p, id, sourceId) == Staged(p, id) <==> StagedForSource(p, id, sourceId)
  {
    if StagedOf(p, id, sourceId) == Staged(p, id) {
      forall key | key in VersionsOf(p, id) ensures VersionsOf(p, id)[key].sourceId == sourceId {
        assert key in Staged(p, id);
      }
    }
  }

  // Only this manifest and its changes are written, and all that the source publishes is its own.
  ghost predicate WritesOnly(p: Platform, p': Platform, id: int, sourceId: string) {
    && p'.versions == p.versions
    && p'.manifests == p.manifests[id := ManifestRow(sourceId, Promoted)]
    && id in p'.changes && p'.changes == p.changes[id := p'.changes[id]]
    && forall at :: at in p'.current && at.sourceId == sourceId ==> p'.current[at].manifestId == id
  }

  lemma PromotionWritesOnly(p: Platform, id: int)
    requires CanPromote(p, id)
    ensures WritesOnly(p, PromoteImport(p, id).value, id, p.manifests[id].sourceId)
  {
    var p' := PromoteImport(p, id).value;
    forall at | at in p'.current && at.sourceId == p.manifests[id].sourceId ensures p'.current[at].manifestId == id {
      CurrentAfterPromotion(p, id, at);
    }
  }

  // Main theorem: promotion succeeds exactly from the validated status, and can never happen twice. It
  // publishes all that was staged, and leaves every other source alone, exactly when all of it was
  // staged in the name of the manifest's source.
  lemma PromotionPublishesStaged(p: Platform, id: int)
    requires id in p.manifests && PublishedByPromotion(p)
    ensures PromoteImport(p, id).Ok? <==> p.manifests[id].status == Validated
    ensures PromoteImport(p, id).Ok? ==>
              var sourceId, p' := p.manifests[id].sourceId, PromoteImport(p, id).value;
              && Published(p', sourceId) == StagedOf(p, id, sourceId)
              && (Published(p', sourceId) == Staged(p, id) <==> StagedForSource(p, id, sourceId))
              && (OthersUntouched(p, p', sourceId) <==> StagedForSource(p, id, sourceId))
              && PublishedByPromotion(p')
              && PromoteImport(p', id) == Err(MustBeValidated)
              && WritesOnly(p, p', id, sourceId)
  {
    if PromoteImport(p, id).Ok? {
      PublishedAfterPromotion(p, id, p.manifests[id].sourceId);
      StagedForSourceExactly(p, id, p.manifests[id].sourceId);
      OthersUntouchedExactly(p, id);
      PublishedByPromotionIsKept(p, id);
      PromotionWritesOnly(p, id);
    }
  }

  // ----- the recorded changes -----

  // Each staged version finds under its own source what the manifest's source publishes.
  ghost predicate FindsOwn(p: Platform, id: int, sourceId: string) {
    forall key :: key in VersionsOf(p, id) ==>
      CurrentOf(p, VersionsOf(p, id)[key], key) == At(Published(p, sourceId), key)
  }

  function At(records: map<string, string>, key: string): Option<string> {
    if key in records then Some(records[key]) else None
  }

  // The change of one key, if there is one.
  function ChangeAt(key: string, before: Option<string>, fingerprint: string): Option<Action> {
    if before == Some(fingerprint) then None
    else Some(Action(key, if before.None? then Added else Changed, before, Some(fingerprint)))
  }

  lemma StagedChangeAt(p: Platform, id: int, a: Action)
    ensures a in StagedChanges(p, id)
            <==> a.key in VersionsOf(p, id)
                 && ChangeAt(a.key, CurrentOf(p, VersionsOf(p, id)[a.key], a.key),
                             VersionsOf(p, id)[a.key].fingerprint) == Some(a)
  {
  }

  lemma RemovedChangeAt(p: Platform, id: int, sourceId: string, a: Action)
    ensures a in RemovedChanges(p, id, sourceId)
            <==> a.key in Published(p, sourceId) && a.key !in VersionsOf(p, id)
                 && a == Action(a.key, Removed, Some(Published(p, sourceId)[a.key]), None)
  {
    PublishedAt(p, sourceId, a.key);
    if a.key in Published(p, sourceId) && a.key !in VersionsOf(p, id) {
      assert RecordKey(sourceId, a.key) in p.current;
    }
    if a in RemovedChanges(p, id, sourceId) {
      var at :| at in p.current && at.sourceId == sourceId && at.key !in VersionsOf(p, id)
                && a == Action(at.key, Removed, Some(p.current[at].fingerprint), None);
      assert at == RecordKey(sourceId, a.key);
    }
  }

  lemma DifferenceAt(previous: map<string, string>, next: map<string, string>, a: Action)
    ensures IsAction(a, previous, next)
            <==> if a.key in next then ChangeAt(a.key, At(previous, a.key), next[a.key]) == Some(a)
                 else a.key in previous && a == Action(a.key, Removed, Some(previous[a.key]), None)
  {
  }

  lemma ChangeAtDecides(key: string, a: Option<string>, b: Option<string>, fingerprint: string)
    requires ChangeAt(key, a, fingerprint) == ChangeAt(key, b, fingerprint)
    ensures a == b
  {
  }

  ghost predicate RecordsDifference(p: Platform, id: int, sourceId: string) {
    forall a :: a in StagedChanges(p, id) + RemovedChanges(p, id, sourceId)
        <==> IsAction(a, Published(p, sourceId), Staged(p, id))
  }

  // The recorded changes are the keyed difference exactly when every staged version finds under its own
  // source what the manifest's source publishes - as it does when it names that source.
  lemma ChangesAreDifferenceExactly(p: Platform, id: int, sourceId: string)
    ensures RecordsDifference(p, id, sourceId) <==> FindsOwn(p, id, sourceId)
    ensures StagedForSource(p, id, sourceId) ==> FindsOwn(p, id, sourceId)
  {
    var next := VersionsOf(p, id);
    forall key | key in next && next[key].sourceId == sourceId
      ensures CurrentOf(p, next[key], key) == At(Published(p, sourceId), key)
    {
      PublishedAt(p, sourceId, key);
    }
    if FindsOwn(p, id, sourceId) {
      forall a ensures a in StagedChanges(p, id) + RemovedChanges(p, id, sourceId)
                       <==> IsAction(a, Published(p, sourceId), Staged(p, id))
      {
        StagedChangeAt(p, id, a);
        RemovedChangeAt(p, id, sourceId, a);
        DifferenceAt(Published(p, sourceId), Staged(p, id), a);
      }
    }
    if RecordsDifference(p, id, sourceId) {
      forall key | key in next ensures CurrentOf(p, next[key], key) == At(Published(p, sourceId), key) {
        SameChange(p, id, sourceId, key);
      }
    }
  }

  lemma SameChange(p: Platform, id: int, sourceId: string, key: string)
    requires key in VersionsOf(p, id) && RecordsDifference(p, id, sourceId)
    ensures CurrentOf(p, VersionsOf(p, id)[key], key) == At(Published(p, sourceId), key)
  {
    var v := VersionsOf(p, id)[key];
    var own, published := ChangeAt(key, CurrentOf(p, v, key), v.fingerprint),
                          ChangeAt(key, At(Published(p, sourceId), key), v.fingerprint);
    if own.Some? {
      ChangeOfKey(p, id, sourceId, own.value);
    }
    if published.Some? {
      ChangeOfKey(p, id, sourceId, published.value);
    }
    ChangeAtDecides(key, CurrentOf(p, v, key), At(Published(p, sourceId), key), v.fingerprint);
  }

  lemma ChangeOfKey(p: Platform, id: int, sourceId: string, a: Action)
    requires a.key in VersionsOf(p, id) && RecordsDifference(p, id, sourceId)
    ensures var v := VersionsOf(p, id)[a.key];
            ChangeAt(a.key, CurrentOf(p, v, a.key), v.fingerprint) == Some(a)
            <==> ChangeAt(a.key, At(Published(p, sourceId), a.key), v.fingerprint) == Some(a)
  {
    StagedChangeAt(p, id, a);
    RemovedChangeAt(p, id, sourceId, a);
    DifferenceAt(Published(p, sourceId), Staged(p, id), a);
    assert a in StagedChanges(p, id) + RemovedChanges(p, id, sourceId)
           <==> IsAction(a, Published(p, sourceId), Staged(p, id));
  }

  ghost predicate SameActions(changes: set<Action>, plan: seq<Action>) {
    forall a :: a in changes <==> a in plan
  }

  lemma PlanIsRecorded(p: Platform, id: int, sourceId: string, plan: seq<Action>)
    requires IsDifference(plan, Published(p, sourceId), Staged(p, id))
    ensures SameActions(StagedChanges(p, id) + RemovedChanges(p, id, sourceId), plan)
            <==> RecordsDifference(p, id, sourceId)
  {
    var changes := StagedChanges(p, id) + RemovedChanges(p, id, sourceId);
    if RecordsDifference(p, id, sourceId) {
      forall a ensures a in changes <==> a in plan {
        assert a in plan <==> IsAction(a, Published(p, sourceId), Staged(p, id));
      }
    }
    if SameActions(changes, plan) {
      forall a ensures a in changes <==> IsAction(a, Published(p, sourceId), Staged(p, id)) {
        assert a in plan <==> IsAction(a, Published(p, sourceId), Staged(p, id));
      }
    }
  }

  // The plan that the library builds for this import is what the database does: the recorded changes are
  // the plan's actions exactly when each version finds its own, and applying the plan gives what is
  // published now exactly when all is staged for the source.
  lemma PromotionFollowsPlan(p: Platform, id: int, plan: seq<Action>)
    requires CanPromote(p, id)
    requires IsDifference(plan, Published(p, p.manifests[id].sourceId), Staged(p, id))
    ensures var sourceId, p' := p.manifests[id].sourceId, PromoteImport(p, id).value;
            && (SameActions(p'.changes[id], plan) <==> FindsOwn(p, id, sourceId))
            && (Published(p', sourceId) == Apply(plan, Published(p, sourceId)) <==> StagedForSource(p, id, sourceId))
  {
    var sourceId := p.manifests[id].sourceId;
    PublishedAfterPromotion(p, id, sourceId);
    StagedForSourceExactly(p, id, sourceId);
    ChangesAreDifferenceExactly(p, id, sourceId);
    DifferenceApplies(plan, Published(p, sourceId), Staged(p, id));
    PlanIsRecorded(p, id, sourceId, plan);
  }

  // A version in another source's name takes that source's record over, and the manifest's own record of
  // this key disappears without a recorded removal.
  lemma ForeignVersionTakesOver(p: Platform, id: int, key: string)
    requires CanPromote(p, id) && key in VersionsOf(p, id)
    requires VersionsOf(p, id)[key].sourceId != p.manifests[id].sourceId
    ensures var sourceId, p', v := p.manifests[id].sourceId, PromoteImport(p, id).value, VersionsOf(p, id)[key];
            && RecordKey(v.sourceId, key) in p'.current
            && p'.current[RecordKey(v.sourceId, key)] == Current(v.fingerprint, id)
            && RecordKey(sourceId, key) !in p'.current
            && forall a :: a in p'.changes[id] && a.key == key ==> a.change != Removed
  {
    var sourceId, v := p.manifests[id].sourceId, VersionsOf(p, id)[key];
    CurrentAfterPromotion(p, id, RecordKey(v.sourceId, key));
    CurrentAfterPromotion(p, id, RecordKey(sourceId, key));
    forall a | a in PromoteImport(p, id).value.changes[id] && a.key == key ensures a.change != Removed {
      StagedChangeAt(p, id, a);
      RemovedChangeAt(p, id, sourceId, a);
    }
  }
}
