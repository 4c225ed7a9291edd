// What a license lookup answers, whether it reads the cache or scans the source.
module Verification {
  import opened Records

  datatype LookupResult =
    | MissingRequiredInput
    | NotFound
    | Ambiguous(candidates: seq<Record>)
    | Matched(record: Record)
    | MatchedWithWarnings(record: Record)
    | SourceUnavailable

  // flawed: some record of the source could not be looked at.
  function Decide(candidates: seq<Record>, flawed: bool): LookupResult {
    if |candidates| == 0 then NotFound
    else if |candidates| > 1 then Ambiguous(candidates)
    else if flawed then MatchedWithWarnings(candidates[0])
    else Matched(candidates[0])
  }
}
