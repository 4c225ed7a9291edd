// What redaction and re-importing do to the answers the cache gives.
module CacheLookup {
  import opened Wrappers
  import opened Records
  import opened LicenseNumbers
  import opened Redaction
  import opened Sorting
  import opened Verification
  import opened SqliteCache
  import opened RegistrySync
  import opened ResumableImport

  // ----- redaction -----

  lemma RedactionKeepsMatches(
    table: map<Key, Row>, sourceId: string, number: string, o: RedactionOptions, now: int, askedSource: string,
    asked: string)
    ensures Matching(RedactedTable(table, sourceId, number, o, now), askedSource, asked)
            == Matching(table, askedSource, asked)
  {
    var redacted := RedactedTable(table, sourceId, number, o, now);
    forall fingerprint
      ensures Hit(redacted, Key(askedSource, fingerprint), askedSource, asked)
              <==> Hit(table, Key(askedSource, fingerprint), askedSource, asked)
    {
    }
  }

  // Every lookup finds the records it found before, in the same order. The ones the redaction was
  // for are redacted, all others are as they were.
  lemma RedactionKeepsLookups(
    table: map<Key, Row>, sourceId: string, number: string, o: RedactionOptions, now: int, askedSource: string,
    asked: Option<string>)
    ensures var before := Found(table, askedSource, asked);
            var after := Found(RedactedTable(table, sourceId, number, o, now), askedSource, asked);
            && |after| == |before|
            && forall i :: 0 <= i < |before| ==>
                 && after[i].fingerprint == before[i].fingerprint
                 && after[i] == if askedSource == sourceId && asked == Some(number)
                                then RedactCanonicalRecord(before[i], o)
                                else before[i]
  {
    if asked.Some? {
      RedactionKeepsMatches(table, sourceId, number, o, now, askedSource, asked.value);
      forall i | 0 <= i < |Found(table, askedSource, asked)|
        ensures var before := Found(table, askedSource, asked)[i];
                var after := Found(RedactedTable(table, sourceId, number, o, now), askedSource, asked)[i];
                && after.fingerprint == before.fingerprint
                && after == if askedSource == sourceId && asked == Some(number)
                            then RedactCanonicalRecord(before, o) else before
      {
        assert InOrder(Matching(table, askedSource, asked.value))[i] in Matching(table, askedSource, asked.value);
      }
    }
  }

  // ----- what an answer means -----

  // The fingerprints of the source's rows with this stored number.
  function RowsWithNumber(table: map<Key, Row>, sourceId: string, number: string): set<string> {
    set key | key in table && key.sourceId == sourceId && table[key].record.licenseNumberNormalized == number ::
      key.fingerprint
  }

  // A row's record as it is read back.
  function RecordAt(table: map<Key, Row>, sourceId: string, fingerprint: string): Record
    requires Key(sourceId, fingerprint) in table
  {
    table[Key(sourceId, fingerprint)].record.(sourceId := sourceId, fingerprint := fingerprint)
  }

  // The answer counts the rows with the normal form of the number: none, the one there is, or all of them,
  // each once and by ascending fingerprint.
  lemma AnswerCountsRows(upper: CaseMap, table: map<Key, Row>, sourceId: string, asked: Option<string>)
    ensures var r, number := CachedLookup(upper, table, sourceId, asked), NormalizeLicenseNumber(upper, asked);
            if number.None? then r.MissingRequiredInput?
            else
              var rows := RowsWithNumber(table, sourceId, number.value);
              && (r.NotFound? <==> |rows| == 0) && (r.Matched? <==> |rows| == 1) && (r.Ambiguous? <==> |rows| > 1)
              && (forall fingerprint :: fingerprint in rows ==> Key(sourceId, fingerprint) in table)
              && (r.Matched? ==> r.record.fingerprint in rows
                                 && r.record == RecordAt(table, sourceId, r.record.fingerprint))
              && (r.Ambiguous? ==>
                    && |r.candidates| == |rows|
                    && (forall i :: 0 <= i < |r.candidates| ==>
                          && r.candidates[i].fingerprint in rows
                          && r.candidates[i] == RecordAt(table, sourceId, r.candidates[i].fingerprint))
                    && forall i, j :: 0 <= i < j < |r.candidates| ==>
                         TextLess(r.candidates[i].fingerprint, r.candidates[j].fingerprint))
  {
    var number := NormalizeLicenseNumber(upper, asked);
    if number.Some? {
      var rows, matches := RowsWithNumber(table, sourceId, number.value), Matching(table, sourceId, number.value);
      forall fingerprint ensures fingerprint in rows <==> fingerprint in matches {
        assert Key(sourceId, fingerprint) in table ==> Key(sourceId, fingerprint).fingerprint == fingerprint;
      }
      assert rows == matches;
      var found := Found(table, sourceId, number);
      forall i | 0 <= i < |found|
        ensures found[i].fingerprint in rows && found[i] == RecordAt(table, sourceId, found[i].fingerprint)
      {
        assert InOrder(matches)[i] in matches;
      }
    }
  }

  function Kind(r: LookupResult): int {
    match r
    case MissingRequiredInput => 0
    case NotFound => 1
    case Ambiguous(_) => 2
    case Matched(_) => 3
    case MatchedWithWarnings(_) => 4
    case SourceUnavailable => 5
  }

  // The answer to any question stays of the same kind.
  lemma RedactionKeepsAnswers(
    upper: CaseMap, table: map<Key, Row>, sourceId: string, number: string, o: RedactionOptions, now: int,
    askedSource: string, asked: Option<string>)
    ensures Kind(CachedLookup(upper, RedactedTable(table, sourceId, number, o, now), askedSource, asked))
            == Kind(CachedLookup(upper, table, askedSource, asked))
  {
    RedactionKeepsLookups(table, sourceId, number, o, now, askedSource, NormalizeLicenseNumber(upper, asked));
  }

  // ----- importing again -----

  // Some row of the file brings this record.
  ghost predicate Brings(slots: seq<Slot>, n: nat, key: Key)
    requires n <= |slots|
  {
    exists i :: 0 <= i < n && slots[i].Good? && slots[i].outcome.Some? && KeyOf(slots[i].outcome.value) == key
  }

  lemma {:induction false} UnbroughtRowStays(t: Target, slots: seq<Slot>, base: map<Key, Row>, n: nat, key: Key)
    requires n <= |slots| && !Brings(slots, n, key)
    ensures key in Imported(t, slots, base, n) <==> key in base
    ensures key in base ==> Imported(t, slots, base, n)[key] == base[key]
  {
    if n > 0 {
      assert !(slots[n - 1].Good? && slots[n - 1].outcome.Some? && KeyOf(slots[n - 1].outcome.value) == key);
      UnbroughtRowStays(t, slots, base, n - 1, key);
    }
  }

  // A redaction lasts over an import exactly when no row of the file brings the record again; otherwise
  // the original record takes its place.
  lemma RedactionLastsExactly(
    t: Target, slots: seq<Slot>, table: map<Key, Row>, sourceId: string, number: string, o: RedactionOptions,
    now: int, key: Key)
    requires Consistent(slots) && Hit(table, key, sourceId, number)
    ensures var redacted := RedactedTable(table, sourceId, number, o, now);
            var again := Imported(t, slots, redacted, |slots|);
            && key in redacted && key in again
            && (again[key] == redacted[key] <==> !Brings(slots, |slots|, key))
            && (Brings(slots, |slots|, key) ==>
                  var original := Imported(t, slots, table, |slots|);
                  key in original && again[key] == original[key] && again[key].redactedAt.None?)
  {
    var redacted := RedactedTable(table, sourceId, number, o, now);
    if Brings(slots, |slots|, key) {
      var i :| 0 <= i < |slots| && slots[i].Good? && slots[i].outcome.Some? && KeyOf(slots[i].outcome.value) == key;
      ImportedHas(t, slots, redacted, |slots|, i);
      ImportedHas(t, slots, table, |slots|, i);
    } else {
      UnbroughtRowStays(t, slots, redacted, |slots|, key);
    }
  }

  // ----- which stored records can be found at all -----

  ghost predicate FindableBy(upper: CaseMap, table: map<Key, Row>, key: Key, asked: Option<string>) {
    var number := NormalizeLicenseNumber(upper, asked);
    number.Some? && key.fingerprint in Matching(table, key.sourceId, number.value)
  }

  // Some question finds a stored record exactly when its stored number is in normal form; when
  // the number was stored as the normal form of the license number, asking for that one does.
  lemma FindableExactly(upper: CaseMap, table: map<Key, Row>, key: Key)
    requires key in table
    ensures (exists asked :: FindableBy(upper, table, key, asked))
            <==> IsCanonical(table[key].record.licenseNumberNormalized)
    ensures var record := table[key].record;
            NormalizeLicenseNumber(upper, Some(record.licenseNumber)) == Some(record.licenseNumberNormalized)
            ==> FindableBy(upper, table, key, Some(record.licenseNumber))
  {
    var stored := table[key].record.licenseNumberNormalized;
    assert key == Key(key.sourceId, key.fingerprint);
    if IsCanonical(stored) {
      NormalFormsAreFixedPoints(upper, stored);
      assert FindableBy(upper, table, key, Some(stored));
    }
  }
}
