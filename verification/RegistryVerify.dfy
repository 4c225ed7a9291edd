// OpenTradeRegistry.verify: a lookup that scans the source file, or asks the cache.
module RegistryVerify {
  import opened Wrappers
  import opened Records
  import opened LicenseNumbers
  import opened Verification
  import opened SqliteCache
  import opened RegistrySync

  datatype VerificationWarning = SourceWarning(row: nat) | RowReported(row: nat) | RecordNormalizationFailed(row: nat)

  // The three ways a record can carry the number that was asked for.
  predicate Carries(upper: CaseMap, record: Record, number: string) {
    || record.licenseNumberNormalized == number
    || NormalizeLicenseNumber(upper, Some(record.licenseNumber)) == Some(number)
    || (record.alternateLicenseNumbers.Some? && CarriesAlternate(upper, record.alternateLicenseNumbers.value, number))
  }

  predicate CarriesAlternate(upper: CaseMap, alternates: seq<string>, number: string) {
    exists i :: 0 <= i < |alternates| && NormalizeLicenseNumber(upper, Some(alternates[i])) == Some(number)
  }

  predicate IsCandidate(upper: CaseMap, slot: Slot, number: string) {
    slot.Good? && slot.outcome.Some? && Carries(upper, slot.outcome.value, number)
  }

  // The candidates among the first n rows, one for every row.
  function Candidates(upper: CaseMap, slots: seq<Slot>, number: string, n: nat): seq<Record>
    requires n <= |slots|
  {
    if n == 0 then []
    else if IsCandidate(upper, slots[n - 1], number) then
      Candidates(upper, slots, number, n - 1) + [slots[n - 1].outcome.value]
    else Candidates(upper, slots, number, n - 1)
  }

  ghost predicate SomeRowFails(slots: seq<Slot>, n: nat)
    requires n <= |slots|
  {
    exists i :: 0 <= i < n && slots[i].Good? && slots[i].outcome.None?
  }

  // An exception comes from an unacceptable header, or from outside before the row stop names; row
  // |slots| + 1 stands for the end of the file.
  ghost predicate ScanFails(slots: seq<Slot>, stop: Option<nat>) {
    || (stop.Some? && stop.value <= |slots| + 1)
    || exists i :: 0 <= i < |slots| && slots[i].Refused?
  }

  ghost function ScanLookup(
      upper: CaseMap, slots: seq<Slot>, stop: Option<nat>, licenseNumber: Option<string>): LookupResult {
    var number := NormalizeLicenseNumber(upper, licenseNumber);
    if number.None? then MissingRequiredInput
    else if ScanFails(slots, stop) then SourceUnavailable
    else Decide(Candidates(upper, slots, number.value, |slots|), SomeRowFails(slots, |slots|))
  }

  // How many warnings of this kind the row deserves.
  function Deserved(slot: Slot, w: VerificationWarning): nat {
    match w
    case SourceWarning(_) => if slot.Good? then slot.warningCount else 0
    case RowReported(_) => if slot.Malformed? || slot.Unmappable? then 1 else 0
    case RecordNormalizationFailed(_) => if slot.Good? && slot.outcome.None? then 1 else 0
  }

  // Each of the first n rows has exactly the warnings it deserves, in row order, and no other row has any.
  ghost predicate WarnsExactly(slots: seq<Slot>, n: nat, warnings: seq<VerificationWarning>)
    requires n <= |slots|
  {
    && (forall w :: multiset(warnings)[w] == if 0 < w.row <= n then Deserved(slots[w.row - 1], w) else 0)
    && forall a, b :: 0 <= a < b < |warnings| ==> warnings[a].row <= warnings[b].row
  }

  lemma WarningIsDeserved(slots: seq<Slot>, n: nat, warnings: seq<VerificationWarning>, w: VerificationWarning)
    requires n <= |slots| && WarnsExactly(slots, n, warnings)
    ensures w in warnings <==> 0 < w.row <= n && Deserved(slots[w.row - 1], w) > 0
  {
    assert w in warnings <==> multiset(warnings)[w] > 0;
  }

  // The warnings of the next row go behind the others.
  lemma MoreWarnings(slots: seq<Slot>, n: nat, warnings: seq<VerificationWarning>, own: seq<VerificationWarning>)
    requires n < |slots| && WarnsExactly(slots, n, warnings)
    requires forall w :: multiset(own)[w] == if w.row == n + 1 then Deserved(slots[n], w) else 0
    ensures WarnsExactly(slots, n + 1, warnings + own)
  {
    var all := warnings + own;
    assert multiset(all) == multiset(warnings) + multiset(own);
    forall a, b | 0 <= a < b < |all| ensures all[a].row <= all[b].row {
      forall w | w in warnings ensures w.row <= n {
        WarningIsDeserved(slots, n, warnings, w);
      }
      forall w | w in own ensures w.row == n + 1 {
        assert multiset(own)[w] > 0;
      }
      assert a < |warnings| ==> all[a] == warnings[a] && warnings[a] in warnings;
      assert b >= |warnings| ==> all[b] == own[b - |warnings|] && own[b - |warnings|] in own;
      assert a >= |warnings| ==> all[a] == own[a - |warnings|] && own[a - |warnings|] in own;
    }
  }

  lemma {:induction false} Repeated(count: nat, w: VerificationWarning, copies: seq<VerificationWarning>)
    requires |copies| == count && forall i :: 0 <= i < count ==> copies[i] == w
    ensures multiset(copies) == multiset{}[w := count]
  {
    if count > 0 {
      Repeated(count - 1, w, copies[..count - 1]);
      assert copies == copies[..count - 1] + [w];
    }
  }

  method HasAlternate(upper: CaseMap, alternates: seq<string>, number: string) returns (found: bool)
    ensures found == CarriesAlternate(upper, alternates, number)
  {
    for i := 0 to |alternates|
      invariant forall j :: 0 <= j < i ==> NormalizeLicenseNumber(upper, Some(alternates[j])) != Some(number)
    {
      if NormalizeLicenseNumber(upper, Some(alternates[i])) == Some(number) {
        return true;
      }
    }
    return false;
  }

  method Includes(upper: CaseMap, record: Record, number: string) returns (found: bool)
    ensures found == Carries(upper, record, number)
  {
    if record.licenseNumberNormalized == number
        || NormalizeLicenseNumber(upper, Some(record.licenseNumber)) == Some(number) {
      return true;
    }
    if record.alternateLicenseNumbers.None? {
      return false;
    }
    found := HasAlternate(upper, record.alternateLicenseNumbers.value, number);
  }

  // What one row contributes to the scan.
  method LookAt(upper: CaseMap, slots: seq<Slot>, n: nat, number: string, warnings: seq<VerificationWarning>)
    returns (candidate: Option<Record>, more: seq<VerificationWarning>)
    requires n < |slots| && !slots[n].Refused? && WarnsExactly(slots, n, warnings)
    ensures WarnsExactly(slots, n + 1, more)
    ensures candidate == if IsCandidate(upper, slots[n], number) then Some(slots[n].outcome.value) else None
  {
    candidate := None;
    var own: seq<VerificationWarning> := [];
    match slots[n] {
      case Quiet | Refused =>
      case Malformed | Unmappable => own := [RowReported(n + 1)];
      case Good(_, count, outcome) =>
        own := seq(count, _ => SourceWarning(n + 1));
        Repeated(count, SourceWarning(n + 1), own);
        if outcome.None? {
          own := own + [RecordNormalizationFailed(n + 1)];
        } else {
          var included := Includes(upper, outcome.value, number);
          if included {
            candidate := Some(outcome.value);
          }
        }
    }
    MoreWarnings(slots, n, warnings, own);
    more := warnings + own;
  }

  // stop: the row before which the environment raises an exception (an abort, a read error).
  method ScanRows(upper: CaseMap, slots: seq<Slot>, stop: Option<nat>, number: string)
    returns (failed: bool, candidates: seq<Record>, seen: seq<VerificationWarning>)
    ensures failed == ScanFails(slots, stop)
    ensures !failed ==> candidates == Candidates(upper, slots, number, |slots|) && WarnsExactly(slots, |slots|, seen)
  {
    candidates, seen := [], [];
    if stop == Some(0) {
      return true, candidates, seen;
    }
    var n := 0;
    while n < |slots|
      invariant n <= |slots|
      invariant stop.Some? ==> stop.value > n
      invariant forall i :: 0 <= i < n ==> !slots[i].Refused?
      invariant candidates == Candidates(upper, slots, number, n)
      invariant WarnsExactly(slots, n, seen)
    {
      if stop == Some(n + 1) || slots[n].Refused? {
        return true, candidates, seen;
      }
      var candidate, more := LookAt(upper, slots, n, number, seen);
      if candidate.Some? {
        candidates := candidates + [candidate.value];
      }
      seen, n := more, n + 1;
    }
    failed := stop == Some(n + 1);
  }

  method VerifyFile(upper: CaseMap, slots: seq<Slot>, stop: Option<nat>, licenseNumber: Option<string>)
    returns (r: LookupResult, warnings: seq<VerificationWarning>)
    ensures r == ScanLookup(upper, slots, stop, licenseNumber)
    ensures !r.MissingRequiredInput? && !r.SourceUnavailable? ==> WarnsExactly(slots, |slots|, warnings)
    ensures r.MissingRequiredInput? || r.SourceUnavailable? ==> warnings == []
  {
    var number := NormalizeLicenseNumber(upper, licenseNumber);
    if number.None? {
      return MissingRequiredInput, [];
    }
    var failed, candidates, seen := ScanRows(upper, slots, stop, number.value);
    if failed {
      return SourceUnavailable, [];
    }
    var flawed := AnyNormalizationFailed(slots, seen);
    return Decide(candidates, flawed), seen;
  }

  method AnyNormalizationFailed(ghost slots: seq<Slot>, warnings: seq<VerificationWarning>) returns (found: bool)
    requires WarnsExactly(slots, |slots|, warnings)
    ensures found == SomeRowFails(slots, |slots|)
  {
    forall i | 0 <= i < |slots| && slots[i].Good? && slots[i].outcome.None?
      ensures RecordNormalizationFailed(i + 1) in warnings
    {
      WarningIsDeserved(slots, |slots|, warnings, RecordNormalizationFailed(i + 1));
    }
    for i := 0 to |warnings|
      invariant forall j :: 0 <= j < i ==> !warnings[j].RecordNormalizationFailed?
    {
      if warnings[i].RecordNormalizationFailed? {
        WarningIsDeserved(slots, |slots|, warnings, warnings[i]);
        assert slots[warnings[i].row - 1].Good? && slots[warnings[i].row - 1].outcome.None?;
        return true;
      }
    }
    return false;
  }

  // In cache mode the number is normalized here and again by the cache.
  method VerifyCache(upper: CaseMap, cache: OpenTradeSqliteCache, sourceId: string, licenseNumber: Option<string>)
    returns (r: LookupResult)
    ensures r == CachedLookup(upper, cache.State().db.records, sourceId, licenseNumber)
  {
    var number := NormalizeLicenseNumber(upper, licenseNumber);
    if number.None? {
      return MissingRequiredInput;
    }
    NormalFormsAreFixedPoints(upper, licenseNumber.value);
    r := cache.Verify(upper, sourceId, number);
  }

  // ----- what an answer means -----

  // Every number that a record can be found under: the stored one, and the normal forms of its license
  // number and of its alternate numbers.
  ghost function NumbersOf(upper: CaseMap, record: Record): set<string> {
    {record.licenseNumberNormalized}
    + (if NormalForm(upper, record.licenseNumber) == "" then {} else {NormalForm(upper, record.licenseNumber)})
    + (if record.alternateLicenseNumbers.None? then {}
       else set i | 0 <= i < |record.alternateLicenseNumbers.value|
                    && NormalForm(upper, record.alternateLicenseNumbers.value[i]) != "" ::
              NormalForm(upper, record.alternateLicenseNumbers.value[i]))
  }

  lemma CarriesItsNumbers(upper: CaseMap, record: Record, number: string)
    requires number != ""
    ensures Carries(upper, record, number) <==> number in NumbersOf(upper, record)
  {
    if record.alternateLicenseNumbers.Some? {
      var alternates := record.alternateLicenseNumbers.value;
      assert forall i :: 0 <= i < |alternates| ==>
        (NormalizeLicenseNumber(upper, Some(alternates[i])) == Some(number)
         <==> NormalForm(upper, alternates[i]) != "" && NormalForm(upper, alternates[i]) == number);
    }
  }

  ghost predicate FoundUnder(upper: CaseMap, slot: Slot, number: string) {
    slot.Good? && slot.outcome.Some? && number in NumbersOf(upper, slot.outcome.value)
  }

  // The rows whose record can be found under the number.
  ghost function RowsWith(upper: CaseMap, slots: seq<Slot>, number: string, n: nat): set<nat>
    requires n <= |slots|
  {
    set i: nat | i < n && FoundUnder(upper, slots[i], number)
  }

  lemma FoundIsCandidate(upper: CaseMap, slot: Slot, number: string)
    requires number != ""
    ensures IsCandidate(upper, slot, number) <==> FoundUnder(upper, slot, number)
  {
    if slot.Good? && slot.outcome.Some? {
      CarriesItsNumbers(upper, slot.outcome.value, number);
    }
  }

  // The records of exactly these rows, in row order.
  ghost predicate Lists(hits: seq<Option<Record>>, rows: set<nat>, records: seq<Record>, order: seq<nat>) {
    && |order| == |records| == |rows|
    && (forall k :: 0 <= k < |order| ==> order[k] in rows)
    && (forall a, b :: 0 <= a < b < |order| ==> order[a] < order[b])
    && forall k :: 0 <= k < |order| ==> order[k] < |hits| && hits[order[k]] == Some(records[k])
  }

  function RecordsIn(hits: seq<Option<Record>>, n: nat): seq<Record>
    requires n <= |hits|
  {
    if n == 0 then []
    else RecordsIn(hits, n - 1) + if hits[n - 1].Some? then [hits[n - 1].value] else []
  }

  lemma {:induction false} HitsAreListed(hits: seq<Option<Record>>, n: nat) returns (rows: set<nat>, order: seq<nat>)
    requires n <= |hits|
    ensures forall i: nat :: i in rows <==> i < n && hits[i].Some?
    ensures Lists(hits, rows, RecordsIn(hits, n), order)
  {
    rows, order := {}, [];
    if n > 0 {
      rows, order := HitsAreListed(hits, n - 1);
      if hits[n - 1].Some? {
        assert |rows + {n - 1}| == |rows| + 1;
        rows, order := rows + {n - 1}, order + [n - 1];
      }
    }
  }

  // The record of each row that is a candidate.
  function HitsOf(upper: CaseMap, slots: seq<Slot>, number: string): (hits: seq<Option<Record>>)
    ensures |hits| == |slots|
  {
    seq(|slots|, i requires 0 <= i < |slots| =>
      if IsCandidate(upper, slots[i], number) then Some(slots[i].outcome.value) else None)
  }

  lemma {:induction false} CandidatesAreHits(upper: CaseMap, slots: seq<Slot>, number: string, n: nat)
    requires n <= |slots|
    ensures Candidates(upper, slots, number, n) == RecordsIn(HitsOf(upper, slots, number), n)
  {
    if n > 0 {
      CandidatesAreHits(upper, slots, number, n - 1);
    }
  }

  ghost predicate OfRows(slots: seq<Slot>, rows: set<nat>, records: seq<Record>) {
    exists order: seq<nat> ::
      && |order| == |records| == |rows|
      && (forall k :: 0 <= k < |order| ==> order[k] in rows)
      && (forall a, b :: 0 <= a < b < |order| ==> order[a] < order[b])
      && forall k :: 0 <= k < |order| ==>
           order[k] < |slots| && slots[order[k]].Good? && slots[order[k]].outcome == Some(records[k])
  }

  lemma CandidatesAreRows(upper: CaseMap, slots: seq<Slot>, number: string)
    requires number != ""
    ensures OfRows(slots, RowsWith(upper, slots, number, |slots|), Candidates(upper, slots, number, |slots|))
  {
    var hits := HitsOf(upper, slots, number);
    var rows, order := HitsAreListed(hits, |slots|);
    CandidatesAreHits(upper, slots, number, |slots|);
    forall i: nat | i < |slots| ensures hits[i].Some? <==> FoundUnder(upper, slots[i], number) {
      FoundIsCandidate(upper, slots[i], number);
    }
    assert rows == RowsWith(upper, slots, number, |slots|);
    assert forall k :: 0 <= k < |order| ==> hits[order[k]].Some?;
  }

  // None, one or several rows; flawed says that some row could not be normalized.
  ghost predicate CountsRows(slots: seq<Slot>, rows: set<nat>, flawed: bool, r: LookupResult) {
    && (r.NotFound? <==> |rows| == 0) && (r.Ambiguous? <==> |rows| > 1)
    && (r.Matched? <==> |rows| == 1 && !flawed) && (r.MatchedWithWarnings? <==> |rows| == 1 && flawed)
    && (r.Matched? || r.MatchedWithWarnings? ==> OfRows(slots, rows, [r.record]))
    && (r.Ambiguous? ==> OfRows(slots, rows, r.candidates))
  }

  lemma DecideCountsRows(slots: seq<Slot>, rows: set<nat>, candidates: seq<Record>, flawed: bool)
    requires OfRows(slots, rows, candidates)
    ensures CountsRows(slots, rows, flawed, Decide(candidates, flawed))
  {
    assert |candidates| == 1 ==> candidates == [candidates[0]];
  }

  ghost predicate IsFlawed(slots: seq<Slot>) {
    exists slot :: slot in slots && slot.Good? && slot.outcome.None?
  }

  ghost predicate IsUnreadable(slots: seq<Slot>, stop: Option<nat>) {
    (stop.Some? && stop.value <= |slots| + 1) || Refused in slots
  }

  lemma FlawsAndRefusals(slots: seq<Slot>, stop: Option<nat>)
    ensures SomeRowFails(slots, |slots|) <==> IsFlawed(slots)
    ensures ScanFails(slots, stop) <==> IsUnreadable(slots, stop)
  {
  }

  // The answer counts the rows with the normal form of the number: none, the one there is, or all of them.
  lemma ScanCountsRows(upper: CaseMap, slots: seq<Slot>, stop: Option<nat>, asked: Option<string>)
    ensures var r := ScanLookup(upper, slots, stop, asked);
            var number := if asked.None? then "" else NormalForm(upper, asked.value);
            && (r.MissingRequiredInput? <==> number == "")
            && (r.SourceUnavailable? <==> number != "" && IsUnreadable(slots, stop))
            && (number != "" && !IsUnreadable(slots, stop) ==>
                  CountsRows(slots, RowsWith(upper, slots, number, |slots|), IsFlawed(slots), r))
  {
    var number := if asked.None? then "" else NormalForm(upper, asked.value);
    FlawsAndRefusals(slots, stop);
    if number != "" {
      CandidatesAreRows(upper, slots, number);
      DecideCountsRows(slots, RowsWith(upper, slots, number, |slots|), Candidates(upper, slots, number, |slots|),
                       IsFlawed(slots));
    }
  }

  // Numbers that agree in upper case, character by character, get the same answer from scan and cache.
  lemma SameSpellingSameAnswer(
    upper: CaseMap, slots: seq<Slot>, stop: Option<nat>, table: map<Key, Row>, sourceId: string, a: string, b: string)
    requires |a| == |b| && forall i :: 0 <= i < |a| ==> upper(a[i]) == upper(b[i])
    ensures ScanLookup(upper, slots, stop, Some(a)) == ScanLookup(upper, slots, stop, Some(b))
    ensures CachedLookup(upper, table, sourceId, Some(a)) == CachedLookup(upper, table, sourceId, Some(b))
  {
    SpellingDoesNotMatter(upper, a, b);
  }
}
