// The promotion plan of an import: readiness, and the keyed difference between what is published
// and what was staged.
module Promotion {
  import opened Wrappers
  import opened Digests
  import opened Sorting

  datatype Status = Pending | Processing | Validated | Promoted | Failed | Rejected | Cancelled

  datatype Manifest = Manifest(
    id: string, sourceId: string, sourceSnapshotId: string, adapterPackage: string, adapterVersion: string,
    status: Status, rawRecordCount: int, normalizedRecordCount: int, duplicateRecordCount: int,
    warningCount: int, errorCount: int, schemaDrift: seq<string>)

  datatype StagedRecord = StagedRecord(sourceId: string, sourceRecordKey: string, fingerprint: string)

  datatype ChangeType = Added | Changed | Removed

  datatype Action = Action(key: string, change: ChangeType, previous: Option<string>, next: Option<string>)

  datatype Plan = Plan(
    sourceId: string, actions: seq<Action>, addedCount: nat, changedCount: nat, removedCount: nat, unchangedCount: int)

  datatype PromotionError =
    | InvalidManifest | InvalidRecord | NotValidated | HasErrors | HasSchemaDrift | CountMismatch
    | WrongSource(key: string) | DuplicateKey(key: string)

  // ----- the schemas -----

  predicate ValidManifest(m: Manifest) {
    && m.id != "" && m.sourceId != "" && m.sourceSnapshotId != "" && m.adapterPackage != "" && m.adapterVersion != ""
    && m.rawRecordCount >= 0 && m.normalizedRecordCount >= 0 && m.duplicateRecordCount >= 0
    && m.warningCount >= 0 && m.errorCount >= 0
    && forall i :: 0 <= i < |m.schemaDrift| ==> m.schemaDrift[i] != ""
  }

  predicate IsFingerprint(s: string) {
    |s| == 64 && forall i :: 0 <= i < |s| ==> '0' <= s[i] <= '9' || 'a' <= s[i] <= 'f'
  }

  predicate ValidRecord(r: StagedRecord) {
    r.sourceId != "" && r.sourceRecordKey != "" && IsFingerprint(r.fingerprint)
  }

  predicate ValidRecords(records: seq<StagedRecord>) {
    forall i :: 0 <= i < |records| ==> ValidRecord(records[i])
  }

  // A fingerprint spells 32 bytes.
  lemma FingerprintSpellsDigest(s: string)
    ensures IsFingerprint(s) <==> exists bytes :: IsDigest(bytes) && |bytes| == 32 && HexOf(bytes) == s
  {
    if IsFingerprint(s) {
      var bytes := LowerHexSpells(s);
    }
    if bytes :| IsDigest(bytes) && |bytes| == 32 && HexOf(bytes) == s {
      SpelledIsLowerHex(bytes);
    }
  }

  function TextsOf(m: Manifest): seq<string> {
    [m.id, m.sourceId, m.sourceSnapshotId, m.adapterPackage, m.adapterVersion] + m.schemaDrift
  }

  function CountsOf(m: Manifest): seq<int> {
    [m.rawRecordCount, m.normalizedRecordCount, m.duplicateRecordCount, m.warningCount, m.errorCount]
  }

  // No text is missing and no count is negative.
  ghost predicate IsFilled(m: Manifest) {
    "" !in TextsOf(m) && forall k :: 0 <= k < |CountsOf(m)| ==> CountsOf(m)[k] >= 0
  }

  lemma ManifestIsFilled(m: Manifest)
    ensures ValidManifest(m) <==> IsFilled(m)
  {
    var texts, counts := TextsOf(m), CountsOf(m);
    assert texts[0] == m.id && texts[1] == m.sourceId && texts[2] == m.sourceSnapshotId;
    assert texts[3] == m.adapterPackage && texts[4] == m.adapterVersion;
    assert forall i :: 0 <= i < |m.schemaDrift| ==> texts[i + 5] == m.schemaDrift[i];
    assert counts[0] == m.rawRecordCount && counts[1] == m.normalizedRecordCount;
    assert counts[2] == m.duplicateRecordCount && counts[3] == m.warningCount && counts[4] == m.errorCount;
  }

  // ----- readiness -----

  ghost predicate Indexable(records: seq<StagedRecord>, sourceId: string) {
    && (forall i :: 0 <= i < |records| ==> records[i].sourceId == sourceId)
    && DistinctRecords(records)
  }

  ghost predicate Ready(m: Manifest, records: seq<StagedRecord>) {
    && IsFilled(m) && ValidRecords(records)
    && m.status == Validated && m.errorCount == 0 && m.schemaDrift == []
    && |records| == m.normalizedRecordCount
    && Indexable(records, m.sourceId)
  }

  // The error names the first thing that is wrong, in the order of the checks.
  ghost predicate Explains(e: PromotionError, m: Manifest, records: seq<StagedRecord>) {
    var valid := IsFilled(m) && ValidRecords(records);
    var validated := valid && m.status == Validated;
    var clean := validated && m.errorCount == 0;
    var settled := clean && m.schemaDrift == [];
    match e
    case InvalidManifest => !IsFilled(m)
    case InvalidRecord => IsFilled(m) && !ValidRecords(records)
    case NotValidated => valid && m.status != Validated
    case HasErrors => validated && m.errorCount > 0
    case HasSchemaDrift => clean && m.schemaDrift != []
    case CountMismatch => settled && |records| != m.normalizedRecordCount
    case _ => settled && |records| == m.normalizedRecordCount && RefusesIndex(e, records, m.sourceId)
  }

  // The record at which indexing ends: it is of another source, or its key is there already.
  ghost predicate EndsIndex(e: PromotionError, records: seq<StagedRecord>, sourceId: string, n: nat) {
    && n < |records| && Indexable(records[..n], sourceId)
    && match e
       case WrongSource(key) => key == records[n].sourceRecordKey && records[n].sourceId != sourceId
       case DuplicateKey(key) =>
         && key == records[n].sourceRecordKey && records[n].sourceId == sourceId
         && exists i :: 0 <= i < n && records[i].sourceRecordKey == key
       case _ => false
  }

  ghost predicate RefusesIndex(e: PromotionError, records: seq<StagedRecord>, sourceId: string) {
    exists n :: EndsIndex(e, records, sourceId, n)
  }

  method AssertPromotionReady(m: Manifest, records: seq<StagedRecord>) returns (r: Result<(), PromotionError>)
    ensures r.Ok? <==> Ready(m, records)
    ensures r.Err? ==> Explains(r.error, m, records)
  {
    ManifestIsFilled(m);
    if !ValidManifest(m) {
      return Err(InvalidManifest);
    }
    if !ValidRecords(records) {
      return Err(InvalidRecord);
    }
    if m.status != Validated {
      return Err(NotValidated);
    }
    if m.errorCount > 0 {
      return Err(HasErrors);
    }
    if |m.schemaDrift| > 0 {
      return Err(HasSchemaDrift);
    }
    if |records| != m.normalizedRecordCount {
      return Err(CountMismatch);
    }
    var indexed := IndexRecords(records, m.sourceId);
    return match indexed
      case Ok(_) => Ok(())
      case Err(e) => Err(e);
  }

  // ----- the index -----

  function ByKey(records: seq<StagedRecord>): map<string, string> {
    if records == [] then map[]
    else ByKey(records[..|records| - 1])[records[|records| - 1].sourceRecordKey := records[|records| - 1].fingerprint]
  }

  ghost predicate DistinctRecords(records: seq<StagedRecord>) {
    forall i, j :: 0 <= i < j < |records| ==> records[i].sourceRecordKey != records[j].sourceRecordKey
  }

  lemma {:induction false} ByKeyKeys(records: seq<StagedRecord>, key: string)
    ensures key in ByKey(records) <==> exists i :: 0 <= i < |records| && records[i].sourceRecordKey == key
  {
    if records != [] {
      var last, front := |records| - 1, records[..|records| - 1];
      ByKeyKeys(front, key);
      if key in ByKey(front) {
        var i :| 0 <= i < |front| && front[i].sourceRecordKey == key;
        assert records[i].sourceRecordKey == key;
      }
      if i :| 0 <= i < |records| && records[i].sourceRecordKey == key {
        assert i < last ==> front[i].sourceRecordKey == key;
      }
    }
  }

  lemma {:induction false} ByKeyHas(records: seq<StagedRecord>)
    requires DistinctRecords(records)
    ensures |ByKey(records)| == |records|
    ensures forall i :: 0 <= i < |records| ==>
              && records[i].sourceRecordKey in ByKey(records)
              && ByKey(records)[records[i].sourceRecordKey] == records[i].fingerprint
  {
    if records != [] {
      var last, front := records[|records| - 1], records[..|records| - 1];
      ByKeyHas(front);
      ByKeyKeys(front, last.sourceRecordKey);
    }
  }

  lemma ByKeyGrows(records: seq<StagedRecord>, n: nat)
    requires n < |records|
    ensures ByKey(records[..n + 1]) == ByKey(records[..n])[records[n].sourceRecordKey := records[n].fingerprint]
    ensures ByKey(records[..n + 1]).Keys == ByKey(records[..n]).Keys + {records[n].sourceRecordKey}
    ensures DistinctRecords(records) ==> records[n].sourceRecordKey !in ByKey(records[..n])
  {
    assert records[..n + 1][..n] == records[..n];
    ByKeyKeys(records[..n], records[n].sourceRecordKey);
  }

  method IndexRecords(records: seq<StagedRecord>, sourceId: string)
    returns (r: Result<map<string, string>, PromotionError>)
    ensures r.Ok? <==> Indexable(records, sourceId)
    ensures r.Ok? ==> r.value == ByKey(records)
    ensures r.Err? ==> RefusesIndex(r.error, records, sourceId)
  {
    var indexed: map<string, string> := map[];
    for n := 0 to |records|
      invariant Indexable(records[..n], sourceId)
      invariant indexed == ByKey(records[..n])
    {
      var record := records[n];
      ByKeyGrows(records, n);
      ByKeyKeys(records[..n], record.sourceRecordKey);
      if record.sourceId != sourceId {
        assert EndsIndex(WrongSource(record.sourceRecordKey), records, sourceId, n);
        return Err(WrongSource(record.sourceRecordKey));
      }
      if record.sourceRecordKey in indexed {
        var i :| 0 <= i < n && records[..n][i].sourceRecordKey == record.sourceRecordKey;
        assert records[i].sourceRecordKey == records[n].sourceRecordKey;
        assert EndsIndex(DuplicateKey(record.sourceRecordKey), records, sourceId, n);
        return Err(DuplicateKey(record.sourceRecordKey));
      }
      indexed := indexed[record.sourceRecordKey := record.fingerprint];
    }
    assert records[..|records|] == records;
    r := Ok(indexed);
  }

  // ----- what a plan has to be -----

  // The one action that leads from previous to next at this key.
  predicate IsAction(a: Action, previous: map<string, string>, next: map<string, string>) {
    match a.change
    case Added => a.key !in previous && a.key in next && a == Action(a.key, Added, None, Some(next[a.key]))
    case Changed =>
      && a.key in previous && a.key in next && previous[a.key] != next[a.key]
      && a == Action(a.key, Changed, Some(previous[a.key]), Some(next[a.key]))
    case Removed => a.key in previous && a.key !in next && a == Action(a.key, Removed, Some(previous[a.key]), None)
  }

  function ActionKey(a: Action): string {
    a.key
  }

  // Exactly the necessary actions, one per key.
  ghost predicate IsDifference(actions: seq<Action>, previous: map<string, string>, next: map<string, string>) {
    && (forall a :: a in actions <==> IsAction(a, previous, next))
    && Distinct(Keys(actions, ActionKey))
  }

  function Apply(actions: seq<Action>, records: map<string, string>): map<string, string> {
    if actions == [] then records
    else
      var a := actions[0];
      Apply(actions[1..], if a.next.Some? then records[a.key := a.next.value] else records - {a.key})
  }

  function Count(actions: seq<Action>, change: ChangeType): nat {
    if actions == [] then 0 else (if actions[0].change == change then 1 else 0) + Count(actions[1..], change)
  }

  // ----- applying the plan -----

  lemma {:induction false} ApplyElsewhere(actions: seq<Action>, records: map<string, string>, key: string)
    requires key !in Keys(actions, ActionKey)
    ensures key in Apply(actions, records) <==> key in records
    ensures key in records ==> Apply(actions, records)[key] == records[key]
    decreases |actions|
  {
    if actions != [] {
      var keys := Keys(actions, ActionKey);
      assert keys[0] in keys && keys[0] == actions[0].key;
      assert Keys(actions[1..], ActionKey) == keys[1..];
      var a := actions[0];
      ApplyElsewhere(actions[1..], if a.next.Some? then records[a.key := a.next.value] else records - {a.key}, key);
    }
  }

  lemma {:induction false} ApplyAt(actions: seq<Action>, records: map<string, string>, n: nat)
    requires n < |actions| && Distinct(Keys(actions, ActionKey))
    ensures var a, r := actions[n], Apply(actions, records);
            if a.next.Some? then a.key in r && r[a.key] == a.next.value else a.key !in r
    decreases |actions|
  {
    var a, keys := actions[0], Keys(actions, ActionKey);
    var first := if a.next.Some? then records[a.key := a.next.value] else records - {a.key};
    assert Keys(actions[1..], ActionKey) == keys[1..];
    if n == 0 {
      assert forall i :: 0 <= i < |keys[1..]| ==> keys[1..][i] != keys[0];
      ApplyElsewhere(actions[1..], first, a.key);
    } else {
      ApplyAt(actions[1..], first, n - 1);
    }
  }

  // Applying the plan to what is published gives exactly what was staged.
  lemma DifferenceApplies(actions: seq<Action>, previous: map<string, string>, next: map<string, string>)
    requires IsDifference(actions, previous, next)
    ensures Apply(actions, previous) == next
  {
    var result := Apply(actions, previous);
    forall key
      ensures key in result <==> key in next
      ensures key in next ==> result[key] == next[key]
    {
      var a := if key !in previous && key in next then Action(key, Added, None, Some(next[key]))
               else if key in previous && key !in next then Action(key, Removed, Some(previous[key]), None)
               else if key in previous && previous[key] != next[key] then
                 Action(key, Changed, Some(previous[key]), Some(next[key]))
               else Action(key, Added, None, None);
      if IsAction(a, previous, next) {
        assert a in actions;
        var n :| 0 <= n < |actions| && actions[n] == a;
        ApplyAt(actions, previous, n);
      } else {
        forall n | 0 <= n < |actions| ensures Keys(actions, ActionKey)[n] != key {
          assert actions[n] in actions && IsAction(actions[n], previous, next);
        }
        ApplyElsewhere(actions, previous, key);
      }
    }
  }

  // Ascending by key, the plan depends only on the two maps.
  lemma PlanIsDetermined(
    a: seq<Action>, b: seq<Action>, previous: map<string, string>, next: map<string, string>,
    less: (string, string) -> bool)
    requires StrictTotalOrder(less) && Ascending(Keys(a, ActionKey), less) && Ascending(Keys(b, ActionKey), less)
    requires IsDifference(a, previous, next) && IsDifference(b, previous, next)
    ensures a == b
  {
    forall k ensures k in Keys(a, ActionKey) <==> k in Keys(b, ActionKey) {
      KeyInKeys(a, ActionKey, k);
      KeyInKeys(b, ActionKey, k);
    }
    AscendingIsUnique(Keys(a, ActionKey), Keys(b, ActionKey), less);
    forall n | 0 <= n < |a| ensures a[n] == b[n] {
      assert Keys(a, ActionKey)[n] == Keys(b, ActionKey)[n];
      assert a[n] in a && b[n] in b;
      assert IsAction(a[n], previous, next) && IsAction(b[n], previous, next);
    }
  }

  lemma ByKeyPermutes(a: seq<StagedRecord>, b: seq<StagedRecord>)
    requires DistinctRecords(a) && DistinctRecords(b) && multiset(a) == multiset(b)
    ensures ByKey(a) == ByKey(b)
  {
    ByKeyHas(a);
    ByKeyHas(b);
    forall key
      ensures key in ByKey(a) <==> key in ByKey(b)
      ensures key in ByKey(a) ==> ByKey(a)[key] == ByKey(b)[key]
    {
      ByKeyKeys(a, key);
      ByKeyKeys(b, key);
      if key in ByKey(a) {
        var i :| 0 <= i < |a| && a[i].sourceRecordKey == key;
        StillMember(a, b, a[i]);
      }
      if key in ByKey(b) {
        var j :| 0 <= j < |b| && b[j].sourceRecordKey == key;
        StillMember(b, a, b[j]);
      }
    }
  }

  // Listing the published and the staged records in another order gives the same plan.
  lemma InputOrderIsIrrelevant(
    previous: seq<StagedRecord>, previous': seq<StagedRecord>, next: seq<StagedRecord>, next': seq<StagedRecord>,
    plan: seq<Action>, plan': seq<Action>, less: (string, string) -> bool)
    requires DistinctRecords(previous) && DistinctRecords(previous') && multiset(previous) == multiset(previous')
    requires DistinctRecords(next) && DistinctRecords(next') && multiset(next) == multiset(next')
    requires StrictTotalOrder(less)
    requires IsDifference(plan, ByKey(previous), ByKey(next)) && Ascending(Keys(plan, ActionKey), less)
    requires IsDifference(plan', ByKey(previous'), ByKey(next')) && Ascending(Keys(plan', ActionKey), less)
    ensures plan == plan'
  {
    ByKeyPermutes(previous, previous');
    ByKeyPermutes(next, next');
    PlanIsDetermined(plan, plan', ByKey(previous), ByKey(next), less);
  }

  // ----- counting -----

  function ChangedKeys(actions: seq<Action>, change: ChangeType): set<string> {
    if actions == [] then {}
    else ChangedKeys(actions[1..], change) + if actions[0].change == change then {actions[0].key} else {}
  }

  lemma {:induction false} ChangedKeysAre(actions: seq<Action>, change: ChangeType, key: string)
    ensures key in ChangedKeys(actions, change) <==> exists a :: a in actions && a.change == change && a.key == key
    decreases |actions|
  {
    if actions != [] {
      ChangedKeysAre(actions[1..], change, key);
      assert forall a :: a in actions <==> a == actions[0] || a in actions[1..];
    }
  }

  lemma {:induction false} CountIsCardinality(actions: seq<Action>, change: ChangeType)
    requires Distinct(Keys(actions, ActionKey))
    ensures Count(actions, change) == |ChangedKeys(actions, change)|
    decreases |actions|
  {
    if actions != [] {
      var rest, keys := actions[1..], Keys(actions, ActionKey);
      assert Keys(rest, ActionKey) == keys[1..];
      CountIsCardinality(rest, change);
      ChangedKeysAre(rest, change, actions[0].key);
      assert actions[0].key !in ChangedKeys(rest, change) by {
        forall i | 0 <= i < |rest| ensures rest[i].key != actions[0].key {
          assert keys[i + 1] != keys[0];
        }
      }
    }
  }

  function UnchangedKeys(previous: map<string, string>, next: map<string, string>): set<string> {
    set k | k in previous && k in next && previous[k] == next[k]
  }

  lemma DifferenceKeys(actions: seq<Action>, previous: map<string, string>, next: map<string, string>)
    requires IsDifference(actions, previous, next)
    ensures ChangedKeys(actions, Added) == next.Keys - previous.Keys
    ensures ChangedKeys(actions, Removed) == previous.Keys - next.Keys
    ensures ChangedKeys(actions, Changed) == previous.Keys * next.Keys - UnchangedKeys(previous, next)
  {
    forall k
      ensures k in ChangedKeys(actions, Added) <==> k in next.Keys - previous.Keys
      ensures k in ChangedKeys(actions, Removed) <==> k in previous.Keys - next.Keys
      ensures k in ChangedKeys(actions, Changed) <==> k in previous.Keys * next.Keys - UnchangedKeys(previous, next)
    {
      ChangedKeysAre(actions, Added, k);
      ChangedKeysAre(actions, Removed, k);
      ChangedKeysAre(actions, Changed, k);
      if k in next.Keys - previous.Keys {
        assert Action(k, Added, None, Some(next[k])) in actions;
      } else if k in previous.Keys - next.Keys {
        assert Action(k, Removed, Some(previous[k]), None) in actions;
      } else if k in previous.Keys * next.Keys - UnchangedKeys(previous, next) {
        assert Action(k, Changed, Some(previous[k]), Some(next[k])) in actions;
      }
    }
  }

  lemma SplitCardinality(a: set<string>, b: set<string>, same: set<string>)
    requires same <= a * b
    ensures |b| == |b - a| + |a * b - same| + |same|
  {
    assert a * b == (a * b - same) + same;
    assert b == (b - a) + a * b;
  }

  // Every key of either side is counted exactly once.
  lemma CountsAddUp(actions: seq<Action>, previous: map<string, string>, next: map<string, string>)
    requires IsDifference(actions, previous, next)
    ensures Count(actions, Added) + Count(actions, Changed) + |UnchangedKeys(previous, next)| == |next|
    ensures Count(actions, Changed) + |UnchangedKeys(previous, next)| + Count(actions, Removed) == |previous|
    ensures Count(actions, Removed) == |previous.Keys - next.Keys|
  {
    CountIsCardinality(actions, Added);
    CountIsCardinality(actions, Changed);
    CountIsCardinality(actions, Removed);
    DifferenceKeys(actions, previous, next);
    var same := UnchangedKeys(previous, next);
    SplitCardinality(previous.Keys, next.Keys, same);
    SplitCardinality(next.Keys, previous.Keys, same);
    assert next.Keys * previous.Keys == previous.Keys * next.Keys;
    assert |next.Keys| == |next| && |previous.Keys| == |previous|;
  }

  lemma SortedDifference(
    actions: seq<Action>, previous: map<string, string>, next: map<string, string>, less: (string, string) -> bool)
    requires IsDifference(actions, previous, next)
    ensures IsDifference(SortByKey(actions, ActionKey, less), previous, next)
  {
    SameMembers(SortByKey(actions, ActionKey, less), actions);
    SortKeepsDistinct(actions, ActionKey, less);
  }

  // ----- building the plan -----

  // The differences found after looking at the given keys only.
  ghost predicate PartialDifference(
    actions: seq<Action>, previous: map<string, string>, next: map<string, string>, keys: set<string>)
  {
    && (forall a :: a in actions <==> IsAction(a, previous, next) && a.key in keys)
    && Distinct(Keys(actions, ActionKey))
  }

  lemma PartialStep(
    actions: seq<Action>, previous: map<string, string>, next: map<string, string>, keys: set<string>,
    key: string, found: seq<Action>)
    requires PartialDifference(actions, previous, next, keys) && key !in keys && |found| <= 1
    requires forall a :: a in found <==> IsAction(a, previous, next) && a.key == key
    ensures PartialDifference(actions + found, previous, next, keys + {key})
  {
    if found != [] {
      assert Keys(actions + found, ActionKey) == Keys(actions, ActionKey) + [found[0].key];
      assert found[0] in found;
      forall n | 0 <= n < |actions| ensures Keys(actions, ActionKey)[n] != key {
        assert actions[n] in actions;
      }
    } else {
      assert actions + found == actions;
    }
  }

  // The actions for the staged records: additions and changes.
  method CollectNext(records: seq<StagedRecord>, previous: map<string, string>, next: map<string, string>)
    returns (actions: seq<Action>)
    requires next == ByKey(records) && DistinctRecords(records)
    ensures PartialDifference(actions, previous, next, next.Keys)
  {
    actions := [];
    ByKeyHas(records);
    for n := 0 to |records|
      invariant PartialDifference(actions, previous, next, ByKey(records[..n]).Keys)
    {
      var key := records[n].sourceRecordKey;
      ByKeyGrows(records, n);
      var found := if key !in previous then [Action(key, Added, None, Some(next[key]))]
                   else if previous[key] != next[key] then [Action(key, Changed, Some(previous[key]), Some(next[key]))]
                   else [];
      PartialStep(actions, previous, next, ByKey(records[..n]).Keys, key, found);
      actions := actions + found;
    }
    assert records[..|records|] == records;
  }

  function RemovalAt(key: string, previous: map<string, string>, next: map<string, string>): seq<Action>
    requires key in previous
  {
    if key !in next then [Action(key, Removed, Some(previous[key]), None)] else []
  }

  lemma RemovalStep(
    actions: seq<Action>, previous: map<string, string>, next: map<string, string>, seen: set<string>, key: string)
    requires key in previous && key !in seen
    requires PartialDifference(actions, previous, next, next.Keys + seen)
    ensures PartialDifference(actions + RemovalAt(key, previous, next), previous, next, next.Keys + (seen + {key}))
  {
    if key !in next {
      PartialStep(actions, previous, next, next.Keys + seen, key, RemovalAt(key, previous, next));
      assert next.Keys + (seen + {key}) == next.Keys + seen + {key};
    } else {
      assert next.Keys + (seen + {key}) == next.Keys + seen;
      assert actions + [] == actions;
    }
  }

  // The actions for the published records that were not staged again.
  method CollectRemoved(
    records: seq<StagedRecord>, previous: map<string, string>, next: map<string, string>, soFar: seq<Action>)
    returns (actions: seq<Action>)
    requires previous == ByKey(records) && DistinctRecords(records)
    requires PartialDifference(soFar, previous, next, next.Keys)
    ensures PartialDifference(actions, previous, next, next.Keys + previous.Keys)
  {
    actions := soFar;
    ByKeyHas(records);
    assert next.Keys + {} == next.Keys;
    for n := 0 to |records|
      invariant PartialDifference(actions, previous, next, next.Keys + ByKey(records[..n]).Keys)
    {
      var key := records[n].sourceRecordKey;
      ByKeyGrows(records, n);
      RemovalStep(actions, previous, next, ByKey(records[..n]).Keys, key);
      actions := actions + RemovalAt(key, previous, next);
    }
    assert records[..|records|] == records;
  }

  method BuildPromotionPlan(
    m: Manifest, previousRecords: seq<StagedRecord>, nextRecords: seq<StagedRecord>, less: (string, string) -> bool)
    returns (r: Result<Plan, PromotionError>)
    ensures r.Ok? <==> Ready(m, nextRecords) && ValidRecords(previousRecords) && Indexable(previousRecords, m.sourceId)
    ensures r.Ok? ==>
              var previous, next := ByKey(previousRecords), ByKey(nextRecords);
              && IsDifference(r.value.actions, previous, next)
              && Apply(r.value.actions, previous) == next
              && r.value.addedCount + r.value.changedCount + r.value.unchangedCount == |nextRecords|
              && r.value.changedCount + r.value.unchangedCount + r.value.removedCount == |previousRecords|
              && r.value.unchangedCount == |UnchangedKeys(previous, next)|
              && r.value.removedCount == |previous.Keys - next.Keys|
              && r.value.sourceId == m.sourceId
              && (StrictTotalOrder(less) ==> Ascending(Keys(r.value.actions, ActionKey), less))
    ensures r.Err? ==>
              if !Ready(m, nextRecords) then Explains(r.error, m, nextRecords)
              else if !ValidRecords(previousRecords) then r.error == InvalidRecord
              else RefusesIndex(r.error, previousRecords, m.sourceId)
  {
    var ready := AssertPromotionReady(m, nextRecords);
    if ready.Err? {
      return Err(ready.error);
    }
    if !ValidRecords(previousRecords) {
      return Err(InvalidRecord);
    }
    var previousIndexed := IndexRecords(previousRecords, m.sourceId);
    if previousIndexed.Err? {
      return Err(previousIndexed.error);
    }
    var nextIndexed := IndexRecords(nextRecords, m.sourceId);
    var previous, next := previousIndexed.value, nextIndexed.value;
    var found := CollectNext(nextRecords, previous, next);
    found := CollectRemoved(previousRecords, previous, next, found);
    var actions := SortByKey(found, ActionKey, less);
    SortedDifference(found, previous, next, less);
    if StrictTotalOrder(less) {
      SortedIsAscending(found, ActionKey, less);
    }
    DifferenceApplies(actions, previous, next);
    CountsAddUp(actions, previous, next);
    ByKeyHas(previousRecords);
    ByKeyHas(nextRecords);
    var addedCount, changedCount, removedCount := Count(actions, Added), Count(actions, Changed),
                                                  Count(actions, Removed);
    r := Ok(Plan(m.sourceId, actions, addedCount, changedCount, removedCount,
                 |nextRecords| - addedCount - changedCount));
  }
}
