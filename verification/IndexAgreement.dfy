// The cache as an index of the source: after a completed import, what the cache answers compared
// with what a scan of the same file answers.
module IndexAgreement {
  import opened Wrappers
  import opened Records
  import opened LicenseNumbers
  import opened Sorting
  import opened Verification
  import opened SqliteCache
  import opened RegistrySync
  import opened RowOutcomes
  import opened ResumableImport
  import opened ResumeEquivalence
  import opened RegistryVerify

  // ----- which records an import makes findable -----

  ghost predicate NoRowsOf(base: map<Key, Row>, sourceId: string) {
    forall key :: key in base ==> key.sourceId != sourceId
  }

  // The two columns of the index.
  predicate HasColumns(record: Record, sourceId: string, number: string) {
    record.sourceId == sourceId && record.licenseNumberNormalized == number
  }

  predicate IsIndexed(slot: Slot, sourceId: string, fingerprint: string, number: string) {
    slot.Good? && slot.outcome.Some? && slot.fingerprint == fingerprint
        && HasColumns(slot.outcome.value, sourceId, number)
  }

  ghost predicate Indexed(slots: seq<Slot>, n: nat, sourceId: string, fingerprint: string, number: string)
    requires n <= |slots|
  {
    exists i :: 0 <= i < n && IsIndexed(slots[i], sourceId, fingerprint, number)
  }

  lemma {:induction false} ImportedRowHasSource(
    t: Target, slots: seq<Slot>, base: map<Key, Row>, n: nat, sourceId: string, fingerprint: string) returns (i: nat)
    requires n <= |slots| && Consistent(slots) && NoRowsOf(base, sourceId)
    requires Key(sourceId, fingerprint) in Imported(t, slots, base, n)
    ensures i < n && slots[i].Good? && slots[i].outcome.Some?
    ensures slots[i].fingerprint == fingerprint && slots[i].outcome.value.sourceId == sourceId
    ensures Imported(t, slots, base, n)[Key(sourceId, fingerprint)] == RowOf(t, slots[i].outcome.value)
  {
    if n == 0 {
      assert false;
    } else if slots[n - 1].Good? && slots[n - 1].outcome.Some?
        && KeyOf(slots[n - 1].outcome.value) == Key(sourceId, fingerprint) {
      i := n - 1;
    } else {
      i := ImportedRowHasSource(t, slots, base, n - 1, sourceId, fingerprint);
    }
  }

  lemma ImportedMatches(
    t: Target, slots: seq<Slot>, base: map<Key, Row>, sourceId: string, number: string, fingerprint: string)
    requires Consistent(slots) && NoRowsOf(base, sourceId)
    ensures fingerprint in Matching(Imported(t, slots, base, |slots|), sourceId, number)
            <==> Indexed(slots, |slots|, sourceId, fingerprint, number)
  {
    var table := Imported(t, slots, base, |slots|);
    if fingerprint in Matching(table, sourceId, number) {
      var i := ImportedRowHasSource(t, slots, base, |slots|, sourceId, fingerprint);
      assert IsIndexed(slots[i], sourceId, fingerprint, number);
    }
    if Indexed(slots, |slots|, sourceId, fingerprint, number) {
      var i :| 0 <= i < |slots| && IsIndexed(slots[i], sourceId, fingerprint, number);
      ImportedHas(t, slots, base, |slots|, i);
    }
  }

  // ----- counting candidates and matches -----

  // The fingerprints of the candidates that carry source and number in the indexed columns.
  function IndexedAmong(candidates: seq<Record>, sourceId: string, number: string): set<string> {
    set i | 0 <= i < |candidates| && HasColumns(candidates[i], sourceId, number) :: candidates[i].fingerprint
  }

  // Each candidate carries source and number in the indexed columns, and no content occurs twice.
  ghost predicate AllIndexedOnce(candidates: seq<Record>, sourceId: string, number: string) {
    && (forall i :: 0 <= i < |candidates| ==> HasColumns(candidates[i], sourceId, number))
    && (forall i, j :: 0 <= i < j < |candidates| ==> candidates[i].fingerprint != candidates[j].fingerprint)
  }

  lemma IndexedAmongGrows(candidates: seq<Record>, sourceId: string, number: string)
    requires candidates != []
    ensures var last, front := candidates[|candidates| - 1], candidates[..|candidates| - 1];
            IndexedAmong(candidates, sourceId, number)
            == IndexedAmong(front, sourceId, number)
               + if HasColumns(last, sourceId, number) then {last.fingerprint} else {}
  {
    var last, front := candidates[|candidates| - 1], candidates[..|candidates| - 1];
    forall f ensures f in IndexedAmong(candidates, sourceId, number)
                     <==> f in IndexedAmong(front, sourceId, number)
                          || (HasColumns(last, sourceId, number) && f == last.fingerprint)
    {
      if f in IndexedAmong(front, sourceId, number) {
        var i :| 0 <= i < |front| && HasColumns(front[i], sourceId, number) && front[i].fingerprint == f;
        assert candidates[i] == front[i];
      }
      if HasColumns(last, sourceId, number) && f == last.fingerprint {
        assert candidates[|candidates| - 1].fingerprint == f;
      }
    }
  }

  lemma OnceGrows(candidates: seq<Record>, sourceId: string, number: string)
    requires candidates != []
    ensures var last, front := candidates[|candidates| - 1], candidates[..|candidates| - 1];
            AllIndexedOnce(candidates, sourceId, number)
            <==> AllIndexedOnce(front, sourceId, number) && HasColumns(last, sourceId, number)
                 && last.fingerprint !in IndexedAmong(front, sourceId, number)
  {
    var last, front := candidates[|candidates| - 1], candidates[..|candidates| - 1];
    if AllIndexedOnce(candidates, sourceId, number) {
      forall i | 0 <= i < |front| ensures front[i].fingerprint != last.fingerprint {
        assert candidates[i].fingerprint != candidates[|candidates| - 1].fingerprint;
      }
    }
    if AllIndexedOnce(front, sourceId, number) && last.fingerprint !in IndexedAmong(front, sourceId, number) {
      forall i, j | 0 <= i < j < |candidates| ensures candidates[i].fingerprint != candidates[j].fingerprint {
        assert front[i].fingerprint in IndexedAmong(front, sourceId, number);
      }
    }
  }

  lemma {:induction false} CountAmong(candidates: seq<Record>, sourceId: string, number: string)
    ensures |IndexedAmong(candidates, sourceId, number)| <= |candidates|
    ensures |IndexedAmong(candidates, sourceId, number)| == |candidates|
            <==> AllIndexedOnce(candidates, sourceId, number)
  {
    if candidates == [] {
      assert IndexedAmong(candidates, sourceId, number) == {};
    } else {
      CountAmong(candidates[..|candidates| - 1], sourceId, number);
      IndexedAmongGrows(candidates, sourceId, number);
      OnceGrows(candidates, sourceId, number);
    }
  }

  lemma {:induction false} CandidatesIndexed(
    upper: CaseMap, slots: seq<Slot>, sourceId: string, number: string, n: nat, fingerprint: string)
    requires n <= |slots| && Consistent(slots)
    ensures fingerprint in IndexedAmong(Candidates(upper, slots, number, n), sourceId, number)
            <==> Indexed(slots, n, sourceId, fingerprint, number)
  {
    if n > 0 {
      CandidatesIndexed(upper, slots, sourceId, number, n - 1, fingerprint);
      var all, front := Candidates(upper, slots, number, n), Candidates(upper, slots, number, n - 1);
      if IsCandidate(upper, slots[n - 1], number) {
        IndexedAmongGrows(all, sourceId, number);
        assert all[..|all| - 1] == front;
      }
      assert Indexed(slots, n, sourceId, fingerprint, number)
             <==> Indexed(slots, n - 1, sourceId, fingerprint, number)
                  || IsIndexed(slots[n - 1], sourceId, fingerprint, number);
    }
  }

  // ----- a completed import into a cache without rows of the source -----

  // The table holds what a whole, readable file brings, and nothing else of this source.
  ghost predicate IsIndexOf(t: Target, slots: seq<Slot>, base: map<Key, Row>, table: map<Key, Row>) {
    && Consistent(slots) && NoRowsOf(base, t.sourceId) && NothingRefused(slots)
    && table == Imported(t, slots, base, |slots|)
  }

  // One call that completes makes the table an index of its file, even under a run id used before.
  lemma CompletedCallIndexes(o: Options, file: SourceFile, c: CacheState)
    requires Consistent(file.slots) && c.txn.None? && !o.resume && NoRowsOf(c.db.records, o.target.sourceId)
    requires SyncOutcome(o, file, c).result.status == StatusCompleted
    ensures IsIndexOf(o.target, file.slots, c.db.records, SyncOutcome(o, file, c).cache.db.records)
  {
    CallCompletesExactly(o, file, c);
    CompletedRunRefusedNothing(o, file, c);
    CallKeepsPromises(o, file, c.db.records, c);
    LastRowStandsForRows(o.target, file.slots, c.db.records, |file.slots|);
  }

  // So does any chain of calls and restarts that completes.
  lemma CompletedChainIndexes(t: Target, file: SourceFile, c: CacheState, es: seq<Event>)
    requires Consistent(file.slots) && AllAllowed(t, file, c.db.records, c, es)
    requires c.txn.None? && t.runId !in c.db.runs && CanRestart(t, c, es) && NoRowsOf(c.db.records, t.sourceId)
    requires var db := RunEvents(c, es).db; t.runId in db.runs && db.runs[t.runId].status == Completed
    ensures IsIndexOf(t, file.slots, c.db.records, RunEvents(c, es).db.records)
  {
    CompletedChainIsFullImport(t, file, c, es);
  }

  // Main theorem. For every number: the cache matches are the candidates of the scan that carry
  // source and number in the indexed columns, so there are at most as many, and equally many exactly when every
  // candidate does and none is repeated.
  lemma IndexAgreesWithScan(
    upper: CaseMap, t: Target, slots: seq<Slot>, base: map<Key, Row>, table: map<Key, Row>, number: string)
    requires IsIndexOf(t, slots, base, table)
    ensures var matches, candidates := Matching(table, t.sourceId, number), Candidates(upper, slots, number, |slots|);
            && matches == IndexedAmong(candidates, t.sourceId, number)
            && |matches| <= |candidates|
            && (|matches| == |candidates| <==> AllIndexedOnce(candidates, t.sourceId, number))
  {
    var matches, candidates := Matching(table, t.sourceId, number), Candidates(upper, slots, number, |slots|);
    forall fingerprint
      ensures fingerprint in matches <==> fingerprint in IndexedAmong(candidates, t.sourceId, number)
    {
      ImportedMatches(t, slots, base, t.sourceId, number, fingerprint);
      CandidatesIndexed(upper, slots, t.sourceId, number, |slots|, fingerprint);
    }
    assert matches == IndexedAmong(candidates, t.sourceId, number);
    CountAmong(candidates, t.sourceId, number);
  }

  // In terms of the answers: not found by the scan is not found by the cache, ambiguous in the
  // cache is ambiguous in the scan, and missing input is missing for both.
  lemma AnswersAgree(
    upper: CaseMap, t: Target, slots: seq<Slot>, base: map<Key, Row>, table: map<Key, Row>, asked: Option<string>)
    requires IsIndexOf(t, slots, base, table)
    ensures var cached, scanned := CachedLookup(upper, table, t.sourceId, asked), ScanLookup(upper, slots, None, asked);
            && (cached.MissingRequiredInput? <==> scanned.MissingRequiredInput?)
            && (scanned.NotFound? ==> cached.NotFound?)
            && (cached.Ambiguous? ==> scanned.Ambiguous?)
            && (cached.Matched? ==> !scanned.NotFound?)
            && !cached.SourceUnavailable? && !scanned.SourceUnavailable?
  {
    var number := NormalizeLicenseNumber(upper, asked);
    if number.Some? {
      IndexAgreesWithScan(upper, t, slots, base, table, number.value);
    }
  }

  lemma {:induction false} CandidateHasRow(
      upper: CaseMap, slots: seq<Slot>, number: string, n: nat, k: nat) returns (i: nat)
    requires n <= |slots| && k < |Candidates(upper, slots, number, n)|
    ensures i < n && IsCandidate(upper, slots[i], number)
            && slots[i].outcome.value == Candidates(upper, slots, number, n)[k]
  {
    if IsCandidate(upper, slots[n - 1], number) && k == |Candidates(upper, slots, number, n)| - 1 {
      i := n - 1;
    } else {
      i := CandidateHasRow(upper, slots, number, n - 1, k);
    }
  }

  // When the scan finds one record, the cache finds the same one, marked with its import run,
  // exactly when the record carries source and number in the indexed columns; otherwise it finds nothing.
  lemma SingleMatchAgrees(
    upper: CaseMap, t: Target, slots: seq<Slot>, base: map<Key, Row>, table: map<Key, Row>, asked: Option<string>)
    requires IsIndexOf(t, slots, base, table)
    requires var scanned := ScanLookup(upper, slots, None, asked); scanned.Matched? || scanned.MatchedWithWarnings?
    ensures var record := ScanLookup(upper, slots, None, asked).record;
            CachedLookup(upper, table, t.sourceId, asked)
            == if record.sourceId == t.sourceId
                  && Some(record.licenseNumberNormalized) == NormalizeLicenseNumber(upper, asked)
               then Matched(record.(importRunId := Some(t.runId))) else NotFound
  {
    var number := NormalizeLicenseNumber(upper, asked).value;
    IndexAgreesWithScan(upper, t, slots, base, table, number);
    var candidates := Candidates(upper, slots, number, |slots|);
    assert |candidates| == 1;
    var record := candidates[0];
    OnlyMatch(table, t.sourceId, number, candidates);
    if HasColumns(record, t.sourceId, number) {
      var i := CandidateHasRow(upper, slots, number, |slots|, 0);
      ImportedHas(t, slots, base, |slots|, i);
    }
  }

  lemma OnlyMatch(table: map<Key, Row>, sourceId: string, number: string, candidates: seq<Record>)
    requires |candidates| == 1 && Matching(table, sourceId, number) == IndexedAmong(candidates, sourceId, number)
    ensures var record := candidates[0];
            Found(table, sourceId, Some(number))
            == if HasColumns(record, sourceId, number) && Key(sourceId, record.fingerprint) in table
               then [ReadBack(Key(sourceId, record.fingerprint), table[Key(sourceId, record.fingerprint)])] else []
  {
    var record := candidates[0];
    var matches := Matching(table, sourceId, number);
    if HasColumns(record, sourceId, number) {
      assert record.fingerprint in matches;
      assert matches == {record.fingerprint};
      assert InOrder(matches)[0] in matches;
    } else {
      assert matches == {};
    }
  }

  lemma RepeatedRowCandidates(upper: CaseMap, good: Slot)
    requires good.Good? && good.outcome.Some?
    ensures var record := good.outcome.value;
            && Candidates(upper, [good, good], record.licenseNumberNormalized, 2) == [record, record]
            && |IndexedAmong([record, record], record.sourceId, record.licenseNumberNormalized)| == 1
  {
    var record := good.outcome.value;
    var number, slots := record.licenseNumberNormalized, [good, good];
    assert IsCandidate(upper, slots[0], number) && IsCandidate(upper, slots[1], number);
    assert Candidates(upper, slots, number, 0) == [];
    assert Candidates(upper, slots, number, 1) == [record];
    assert [record, record][0].fingerprint in IndexedAmong([record, record], record.sourceId, number);
    assert IndexedAmong([record, record], record.sourceId, number) == {record.fingerprint};
  }

  // Two equal rows: one record in the cache, two candidates in the scan.
  lemma RepeatedRowIsAmbiguousInScanOnly(
    upper: CaseMap, t: Target, record: Record, warningCount: nat, base: map<Key, Row>, table: map<Key, Row>,
    asked: string)
    requires var good := Good(record.fingerprint, warningCount, Some(record));
             IsIndexOf(t, [good, good], base, table) && record.sourceId == t.sourceId
    requires NormalizeLicenseNumber(upper, Some(asked)) == Some(record.licenseNumberNormalized)
    ensures var good := Good(record.fingerprint, warningCount, Some(record));
            && ScanLookup(upper, [good, good], None, Some(asked)).Ambiguous?
            && CachedLookup(upper, table, t.sourceId, Some(asked)).Matched?
  {
    var good := Good(record.fingerprint, warningCount, Some(record));
    IndexAgreesWithScan(upper, t, [good, good], base, table, record.licenseNumberNormalized);
    RepeatedRowCandidates(upper, good);
  }
}
