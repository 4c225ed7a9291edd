// searchLicenses: keyset pagination over the current records, and what following its cursors visits.
module Pagination {
  import opened Wrappers

  datatype StoredRow = StoredRow(
    id: nat, licenseNumberNormalized: string, businessName: Option<string>, state: string, sourceId: string,
    status: string, trades: seq<string>, allowed: bool)

  datatype Query = Query(
    licenseNumber: Option<string>, businessName: Option<string>, state: Option<string>, sourceId: Option<string>,
    status: Option<string>, trade: Option<string>, cursor: Option<string>, limit: nat)

  datatype Page = Page(records: seq<StoredRow>, nextCursor: Option<string>)

  datatype SearchError = InvalidCursor

  // Decimal text under base64url, and the number read back from such text; None is not a number.
  datatype Codec = Codec(encode: Option<nat> -> string, decode: string -> Option<int>)

  ghost predicate RoundTrips(codec: Codec) {
    forall value: Option<nat> ::
      && codec.encode(value) != ""
      && codec.decode(codec.encode(value)) == if value.Some? then Some(value.value as int) else None
  }

  function DecodeCursor(codec: Codec, cursor: string): Result<nat, SearchError> {
    var value := codec.decode(cursor);
    if value.None? || value.value > MAX_SAFE_INTEGER || value.value < 0 then Err(InvalidCursor) else Ok(value.value)
  }

  // Whether a name matches the pattern made of a wanted name, as the database decides it.
  type Like = (string, string) -> bool

  // ----- what a search means -----

  predicate Given(wanted: Option<string>) {
    wanted.Some? && wanted.value != ""
  }

  predicate Wanted(like: Like, q: Query, row: StoredRow) {
    && row.allowed
    && (q.licenseNumber.Some? ==> row.licenseNumberNormalized == q.licenseNumber.value)
    && (Given(q.businessName) ==> row.businessName.Some? && like(row.businessName.value, q.businessName.value))
    && (q.state.Some? ==> row.state == q.state.value)
    && (q.sourceId.Some? ==> row.sourceId == q.sourceId.value)
    && (q.status.Some? ==> row.status == q.status.value)
    && (Given(q.trade) ==> q.trade.value in row.trades)
  }

  predicate Beyond(after: Option<nat>, id: nat) {
    after.Some? ==> id > after.value
  }

  function Matches(like: Like, q: Query, table: seq<StoredRow>, after: Option<nat>): seq<StoredRow> {
    if table == [] then []
    else if Wanted(like, q, table[0]) && Beyond(after, table[0].id) then
      [table[0]] + Matches(like, q, table[1..], after)
    else Matches(like, q, table[1..], after)
  }

  function PageOf(codec: Codec, matches: seq<StoredRow>, limit: nat): Page {
    if |matches| <= limit then Page(matches, None)
    else Page(matches[..limit], Some(codec.encode(if limit == 0 then None else Some(matches[limit - 1].id))))
  }

  function StartOf(codec: Codec, q: Query): Result<Option<nat>, SearchError> {
    if !Given(q.cursor) then Ok(None)
    else match DecodeCursor(codec, q.cursor.value)
      case Ok(id) => Ok(Some(id))
      case Err(e) => Err(e)
  }

  function SearchResult(codec: Codec, like: Like, q: Query, table: seq<StoredRow>): Result<Page, SearchError> {
    match StartOf(codec, q)
    case Err(e) => Err(e)
    case Ok(after) => Ok(PageOf(codec, Matches(like, q, table, after), q.limit))
  }

  // ----- the search as it runs -----

  datatype Condition =
    | PublicationAllowed | LicenseNumberIs(value: string) | BusinessNameLike(value: string) | StateIs(value: string)
    | SourceIs(value: string) | StatusIs(value: string) | TradesInclude(value: string) | IdAbove(id: nat)

  predicate Holds(like: Like, c: Condition, row: StoredRow) {
    match c
    case PublicationAllowed => row.allowed
    case LicenseNumberIs(value) => row.licenseNumberNormalized == value
    case BusinessNameLike(value) => row.businessName.Some? && like(row.businessName.value, value)
    case StateIs(value) => row.state == value
    case SourceIs(value) => row.sourceId == value
    case StatusIs(value) => row.status == value
    case TradesInclude(value) => value in row.trades
    case IdAbove(id) => row.id > id
  }

  predicate AllHold(like: Like, conditions: seq<Condition>, row: StoredRow) {
    forall i :: 0 <= i < |conditions| ==> Holds(like, conditions[i], row)
  }

  lemma AppendHolds(like: Like, conditions: seq<Condition>, c: Condition, row: StoredRow)
    ensures AllHold(like, conditions + [c], row) <==> AllHold(like, conditions, row) && Holds(like, c, row)
  {
    if AllHold(like, conditions + [c], row) {
      assert (conditions + [c])[|conditions|] == c;
      forall i | 0 <= i < |conditions| ensures Holds(like, conditions[i], row) {
        assert (conditions + [c])[i] == conditions[i];
      }
    }
  }

  method Add(ghost like: Like, conditions: seq<Condition>, wanted: Option<string>, condition: string -> Condition)
    returns (r: seq<Condition>)
    ensures forall row :: AllHold(like, r, row)
              <==> AllHold(like, conditions, row) && (wanted.Some? ==> Holds(like, condition(wanted.value), row))
  {
    if wanted.None? {
      return conditions;
    }
    r := conditions + [condition(wanted.value)];
    forall row
      ensures AllHold(like, r, row) <==> AllHold(like, conditions, row) && Holds(like, condition(wanted.value), row)
    {
      AppendHolds(like, conditions, condition(wanted.value), row);
    }
  }

  method BuildFilters(ghost like: Like, q: Query) returns (conditions: seq<Condition>)
    ensures forall row :: AllHold(like, conditions, row) <==> Wanted(like, q, row)
  {
    conditions := [PublicationAllowed];
    assert forall row :: AllHold(like, conditions, row) <==> row.allowed by {
      assert conditions[0] == PublicationAllowed;
    }
    conditions := Add(like, conditions, q.licenseNumber, value => LicenseNumberIs(value));
    var name := if Given(q.businessName) then q.businessName else None;
    conditions := Add(like, conditions, name, value => BusinessNameLike(value));
    conditions := Add(like, conditions, q.state, value => StateIs(value));
    conditions := Add(like, conditions, q.sourceId, value => SourceIs(value));
    conditions := Add(like, conditions, q.status, value => StatusIs(value));
    conditions := Add(like, conditions, if Given(q.trade) then q.trade else None, value => TradesInclude(value));
  }

  method BuildConditions(codec: Codec, ghost like: Like, q: Query) returns (r: Result<seq<Condition>, SearchError>)
    ensures r.Err? <==> StartOf(codec, q).Err?
    ensures r.Ok? ==>
              forall row ::
                AllHold(like, r.value, row) <==> Wanted(like, q, row) && Beyond(StartOf(codec, q).value, row.id)
  {
    var conditions := BuildFilters(like, q);
    if Given(q.cursor) {
      var decoded := DecodeCursor(codec, q.cursor.value);
      if decoded.Err? {
        return Err(InvalidCursor);
      }
      conditions := Add(like, conditions, q.cursor, _ => IdAbove(decoded.value));
      assert StartOf(codec, q) == Ok(Some(decoded.value));
    }
    return Ok(conditions);
  }

  lemma MatchesFrom(like: Like, q: Query, table: seq<StoredRow>, after: Option<nat>, i: nat, rows: seq<StoredRow>)
    requires i < |table|
    ensures var more := if Wanted(like, q, table[i]) && Beyond(after, table[i].id) then [table[i]] else [];
            rows + Matches(like, q, table[i..], after) == rows + more + Matches(like, q, table[i + 1..], after)
  {
    assert table[i..][1..] == table[i + 1..];
  }

  // The database's part: the first rows in id order for which all conditions hold.
  method Select(
      like: Like, table: seq<StoredRow>, conditions: seq<Condition>, most: nat, ghost q: Query,
      ghost after: Option<nat>)
    returns (rows: seq<StoredRow>)
    requires forall row :: AllHold(like, conditions, row) <==> Wanted(like, q, row) && Beyond(after, row.id)
    ensures var matches := Matches(like, q, table, after);
            rows == if |matches| <= most then matches else matches[..most]
  {
    rows := [];
    var i := 0;
    while i < |table| && |rows| < most
      invariant i <= |table| && |rows| <= most
      invariant Matches(like, q, table, after) == rows + Matches(like, q, table[i..], after)
    {
      MatchesFrom(like, q, table, after, i, rows);
      if AllHold(like, conditions, table[i]) {
        rows := rows + [table[i]];
      }
      i := i + 1;
    }
  }

  method SearchLicenses(
      codec: Codec, like: Like, q: Query, table: seq<StoredRow>) returns (r: Result<Page, SearchError>)
    ensures r == SearchResult(codec, like, q, table)
  {
    var built := BuildConditions(codec, like, q);
    if built.Err? {
      return Err(InvalidCursor);
    }
    var rows := Select(like, table, built.value, q.limit + 1, q, StartOf(codec, q).value);
    var hasMore := |rows| > q.limit;
    var visible := if hasMore then rows[..q.limit] else rows;
    ghost var matches := Matches(like, q, table, StartOf(codec, q).value);
    assert hasMore ==> visible == matches[..q.limit];
    var next := None;
    if hasMore {
      next := Some(codec.encode(if |visible| == 0 then None else Some(visible[|visible| - 1].id)));
    }
    return Ok(Page(visible, next));
  }

  // ----- following the cursors -----

  // The primary key orders the table.
  ghost predicate Ordered(table: seq<StoredRow>) {
    forall i, j :: 0 <= i < j < |table| ==> table[i].id < table[j].id
  }

  datatype Walk = Walk(visited: seq<StoredRow>, complete: bool)

  // One request after another, each answered from the table as it is at that moment.
  function Follow(codec: Codec, like: Like, q: Query, tables: seq<seq<StoredRow>>): Walk
    decreases |tables|
  {
    if tables == [] then Walk([], false)
    else match SearchResult(codec, like, q, tables[0])
      case Err(_) => Walk([], false)
      case Ok(page) =>
        if page.nextCursor.None? then Walk(page.records, true)
        else
          var rest := Follow(codec, like, q.(cursor := page.nextCursor), tables[1..]);
          Walk(page.records + rest.visited, rest.complete)
  }

  lemma {:induction false} MatchesAre(like: Like, q: Query, table: seq<StoredRow>, after: Option<nat>)
    requires Ordered(table)
    ensures var m := Matches(like, q, table, after);
            && Ordered(m)
            && forall row :: row in m <==> row in table && Wanted(like, q, row) && Beyond(after, row.id)
  {
    if table != [] {
      MatchesAre(like, q, table[1..], after);
    }
  }

  lemma {:induction false} CursorIsNoFilter(
      like: Like, q: Query, cursor: Option<string>, table: seq<StoredRow>, after: Option<nat>)
    ensures Matches(like, q.(cursor := cursor), table, after) == Matches(like, q, table, after)
  {
    if table != [] {
      CursorIsNoFilter(like, q, cursor, table[1..], after);
    }
  }

  ghost predicate AllBeyond(rows: seq<StoredRow>, after: Option<nat>) {
    forall i :: 0 <= i < |rows| ==> Beyond(after, rows[i].id)
  }

  // Matches lie beyond their cursor, and beyond whatever the whole table lies beyond.
  lemma {:induction false} MatchesBeyond(
      like: Like, q: Query, table: seq<StoredRow>, after: Option<nat>, bound: Option<nat>)
    ensures AllBeyond(Matches(like, q, table, after), after)
    ensures AllBeyond(table, bound) ==> AllBeyond(Matches(like, q, table, after), bound)
  {
    if table != [] {
      MatchesBeyond(like, q, table[1..], after, bound);
    }
  }

  // Continuing after the k-th match finds the matches from the next one on.
  lemma {:induction false} ContinuingFindsTheRest(
      like: Like, q: Query, table: seq<StoredRow>, after: Option<nat>, k: nat)
    requires Ordered(table) && 0 < k <= |Matches(like, q, table, after)|
    ensures var m := Matches(like, q, table, after); Matches(like, q, table, Some(m[k - 1].id)) == m[k..]
  {
    var m, tail := Matches(like, q, table, after), table[1..];
    var rest := Matches(like, q, tail, after);
    MatchesBeyond(like, q, table, after, None);
    MatchesBeyond(like, q, tail, after, Some(table[0].id));
    if Wanted(like, q, table[0]) && Beyond(after, table[0].id) {
      assert m[k..] == rest[k - 1..];
      if k == 1 {
        BelowAll(like, q, tail, after, Some(table[0].id));
      } else {
        assert m[k - 1] == rest[k - 2];
        ContinuingFindsTheRest(like, q, tail, after, k - 1);
      }
    } else {
      ContinuingFindsTheRest(like, q, tail, after, k);
    }
  }

  lemma {:induction false} BelowAll(like: Like, q: Query, table: seq<StoredRow>, a: Option<nat>, b: Option<nat>)
    requires forall i :: 0 <= i < |table| ==> Beyond(a, table[i].id) && Beyond(b, table[i].id)
    ensures Matches(like, q, table, a) == Matches(like, q, table, b)
  {
    if table != [] {
      BelowAll(like, q, table[1..], a, b);
    }
  }

  // What one page holds and where the next one starts.
  lemma PageThenRest(codec: Codec, like: Like, q: Query, table: seq<StoredRow>, after: Option<nat>)
    requires Ordered(table) && q.limit >= 1 && |Matches(like, q, table, after)| > q.limit
    ensures var m := Matches(like, q, table, after);
            var page := PageOf(codec, m, q.limit);
            && page.records == m[..q.limit]
            && page.nextCursor == Some(codec.encode(Some(m[q.limit - 1].id)))
            && Matches(like, q.(cursor := page.nextCursor), table, Some(m[q.limit - 1].id)) == m[q.limit..]
  {
    var m := Matches(like, q, table, after);
    ContinuingFindsTheRest(like, q, table, after, q.limit);
    CursorIsNoFilter(like, q, PageOf(codec, m, q.limit).nextCursor, table, Some(m[q.limit - 1].id));
  }

  // Cursors survive the way to the client and back, as long as the id is a safe integer; the cursor
  // of an empty page, which only the limit 0 produces, never does.
  lemma CursorIsAcceptedExactly(codec: Codec, q: Query, last: Option<nat>)
    requires RoundTrips(codec)
    ensures var start := StartOf(codec, q.(cursor := Some(codec.encode(last))));
            && (start.Ok? <==> last.Some? && last.value < 0x20_0000_0000_0000)
            && (start.Ok? ==> start.value == last)
  {
    assert codec.encode(last) != "";
  }

  // The request after a page that has a next cursor is accepted exactly when the page has a last record
  // whose id is a safe integer; it then continues behind that record.
  lemma NextRequestIsAcceptedExactly(
    codec: Codec, like: Like, q: Query, table: seq<StoredRow>, later: seq<StoredRow>)
    requires RoundTrips(codec)
    requires var r := SearchResult(codec, like, q, table); r.Ok? && r.value.nextCursor.Some?
    ensures var page := SearchResult(codec, like, q, table).value;
            var next := q.(cursor := page.nextCursor);
            && (SearchResult(codec, like, next, later).Ok?
                <==> page.records != [] && page.records[|page.records| - 1].id < 0x20_0000_0000_0000)
            && (SearchResult(codec, like, next, later).Ok? ==>
                  StartOf(codec, next) == Ok(Some(page.records[|page.records| - 1].id)))
  {
    var m := Matches(like, q, table, StartOf(codec, q).value);
    CursorIsAcceptedExactly(codec, q, if q.limit == 0 then None else Some(m[q.limit - 1].id));
  }

  // With the limit 0 a search that matches anything yields an empty page and a cursor that is refused.
  lemma LimitZeroCannotContinue(codec: Codec, like: Like, q: Query, table: seq<StoredRow>, later: seq<StoredRow>)
    requires RoundTrips(codec) && q.limit == 0 && StartOf(codec, q).Ok?
    requires Matches(like, q, table, StartOf(codec, q).value) != []
    ensures var r := SearchResult(codec, like, q, table);
            && r.Ok? && r.value.records == [] && r.value.nextCursor.Some?
            && SearchResult(codec, like, q.(cursor := r.value.nextCursor), later) == Err(InvalidCursor)
  {
    NextRequestIsAcceptedExactly(codec, like, q, table, later);
  }

  function PageCount(matches: nat, limit: nat): nat
    requires limit >= 1
    decreases matches
  {
    if matches <= limit then 1 else 1 + PageCount(matches - limit, limit)
  }

  ghost predicate SafeIds(table: seq<StoredRow>) {
    forall i :: 0 <= i < |table| ==> table[i].id <= MAX_SAFE_INTEGER
  }

  ghost predicate AllAre(tables: seq<seq<StoredRow>>, table: seq<StoredRow>) {
    forall i :: 0 <= i < |tables| ==> tables[i] == table
  }

  // While the table stays as it is, the walk ends after exactly the pages it takes, and visits
  // exactly the matches, in id order.
  lemma {:induction false} PagesTileTheMatches(
    codec: Codec, like: Like, q: Query, table: seq<StoredRow>, tables: seq<seq<StoredRow>>, after: Option<nat>)
    requires RoundTrips(codec) && Ordered(table) && SafeIds(table) && AllAre(tables, table) && q.limit >= 1
    requires StartOf(codec, q) == Ok(after)
    ensures var m, walk := Matches(like, q, table, after), Follow(codec, like, q, tables);
            && (walk.complete <==> |tables| >= PageCount(|m|, q.limit))
            && (walk.complete ==> walk.visited == m)
            && walk.visited <= m
    decreases |tables|
  {
    var m := Matches(like, q, table, after);
    if tables != [] && |m| > q.limit {
      var last := m[q.limit - 1];
      var next := q.(cursor := PageOf(codec, m, q.limit).nextCursor);
      NextPageStarts(codec, like, q, table, after);
      PagesTileTheMatches(codec, like, next, table, tables[1..], Some(last.id));
      var rest := Follow(codec, like, next, tables[1..]);
      assert Follow(codec, like, q, tables) == Walk(m[..q.limit] + rest.visited, rest.complete);
      PrefixOfRest(m, q.limit, rest.visited);
    }
  }

  lemma NextPageStarts(codec: Codec, like: Like, q: Query, table: seq<StoredRow>, after: Option<nat>)
    requires RoundTrips(codec) && Ordered(table) && SafeIds(table) && q.limit >= 1
    requires |Matches(like, q, table, after)| > q.limit
    ensures var m := Matches(like, q, table, after);
            var next := q.(cursor := PageOf(codec, m, q.limit).nextCursor);
            && StartOf(codec, next) == Ok(Some(m[q.limit - 1].id))
            && Matches(like, next, table, Some(m[q.limit - 1].id)) == m[q.limit..]
  {
    var m := Matches(like, q, table, after);
    PageThenRest(codec, like, q, table, after);
    MatchesAre(like, q, table, after);
    assert m[q.limit - 1] in m && m[q.limit - 1] in table;
    CursorIsAcceptedExactly(codec, q, Some(m[q.limit - 1].id));
  }

  lemma PrefixOfRest(m: seq<StoredRow>, k: nat, rest: seq<StoredRow>)
    requires k <= |m| && rest <= m[k..]
    ensures m[..k] + rest <= m && (rest == m[k..] ==> m[..k] + rest == m)
  {
  }

  // ----- the table changes between requests -----

  ghost predicate PresentIn(like: Like, q: Query, table: seq<StoredRow>, id: nat) {
    exists row :: row in table && row.id == id && Wanted(like, q, row)
  }

  ghost predicate Visits(walk: Walk, id: nat) {
    exists i :: 0 <= i < |walk.visited| && walk.visited[i].id == id
  }

  ghost predicate AllOrdered(tables: seq<seq<StoredRow>>) {
    forall i :: 0 <= i < |tables| ==> Ordered(tables[i])
  }

  lemma JoinedPages(front: seq<StoredRow>, rest: seq<StoredRow>, after: Option<nat>, k: nat)
    requires Ordered(front) && Ordered(rest) && AllBeyond(front, after)
    requires k == |front| > 0 && AllBeyond(rest, Some(front[k - 1].id))
    ensures Ordered(front + rest) && AllBeyond(front + rest, after)
  {
  }

  lemma PageIsOrdered(codec: Codec, like: Like, q: Query, table: seq<StoredRow>, after: Option<nat>)
    requires Ordered(table)
    ensures var records := PageOf(codec, Matches(like, q, table, after), q.limit).records;
            Ordered(records) && AllBeyond(records, after)
  {
    MatchesAre(like, q, table, after);
    MatchesBeyond(like, q, table, after, None);
  }

  // No id is visited twice, whatever happens to the table in between.
  lemma {:induction false} NothingIsVisitedTwice(
      codec: Codec, like: Like, q: Query, tables: seq<seq<StoredRow>>, after: Option<nat>)
    requires RoundTrips(codec) && AllOrdered(tables) && StartOf(codec, q) == Ok(after)
    ensures Ordered(Follow(codec, like, q, tables).visited)
    ensures AllBeyond(Follow(codec, like, q, tables).visited, after)
    decreases |tables|
  {
    if tables != [] {
      PageIsOrdered(codec, like, q, tables[0], after);
      var m := Matches(like, q, tables[0], after);
      var page := PageOf(codec, m, q.limit);
      if page.nextCursor.Some? {
        var last := if q.limit == 0 then None else Some(m[q.limit - 1].id);
        var next := q.(cursor := page.nextCursor);
        CursorIsAcceptedExactly(codec, q, last);
        if StartOf(codec, next).Ok? {
          NothingIsVisitedTwice(codec, like, next, tables[1..], last);
          JoinedPages(page.records, Follow(codec, like, next, tables[1..]).visited, after, q.limit);
        } else {
          assert Follow(codec, like, next, tables[1..]).visited == [];
          assert Follow(codec, like, q, tables).visited == page.records;
        }
      }
    }
  }

  lemma PresentIsMatched(like: Like, q: Query, table: seq<StoredRow>, after: Option<nat>, id: nat) returns (k: nat)
    requires Ordered(table) && PresentIn(like, q, table, id) && Beyond(after, id)
    ensures k < |Matches(like, q, table, after)| && Matches(like, q, table, after)[k].id == id
  {
    MatchesAre(like, q, table, after);
    var row :| row in table && row.id == id && Wanted(like, q, row);
    assert row in Matches(like, q, table, after);
    k :| 0 <= k < |Matches(like, q, table, after)| && Matches(like, q, table, after)[k] == row;
  }

  lemma PresentForNext(like: Like, q: Query, cursor: Option<string>, table: seq<StoredRow>, id: nat)
    requires PresentIn(like, q, table, id)
    ensures PresentIn(like, q.(cursor := cursor), table, id)
  {
    var row :| row in table && row.id == id && Wanted(like, q, row);
    assert Wanted(like, q.(cursor := cursor), row);
  }

  lemma VisitedLater(front: seq<StoredRow>, rest: Walk, id: nat)
    requires Visits(rest, id)
    ensures Visits(Walk(front + rest.visited, rest.complete), id)
  {
    var i :| 0 <= i < |rest.visited| && rest.visited[i].id == id;
    assert (front + rest.visited)[|front| + i].id == id;
  }

  // A record that is wanted and present at every request is visited by a complete walk.
  lemma {:induction false} WhatStaysIsVisited(
    codec: Codec, like: Like, q: Query, tables: seq<seq<StoredRow>>, after: Option<nat>, id: nat)
    requires RoundTrips(codec) && AllOrdered(tables) && StartOf(codec, q) == Ok(after) && Beyond(after, id)
    requires forall i :: 0 <= i < |tables| ==> PresentIn(like, q, tables[i], id)
    requires Follow(codec, like, q, tables).complete
    ensures Visits(Follow(codec, like, q, tables), id)
    decreases |tables|
  {
    var m := Matches(like, q, tables[0], after);
    var page := PageOf(codec, m, q.limit);
    var k := PresentIsMatched(like, q, tables[0], after, id);
    if k < |page.records| {
      assert Follow(codec, like, q, tables).visited[k].id == id;
    } else {
      var last := if q.limit == 0 then None else Some(m[q.limit - 1].id);
      var next := q.(cursor := page.nextCursor);
      CursorIsAcceptedExactly(codec, q, last);
      MatchesAre(like, q, tables[0], after);
      forall i | 0 <= i < |tables[1..]| ensures PresentIn(like, next, tables[1..][i], id) {
        PresentForNext(like, q, page.nextCursor, tables[i + 1], id);
      }
      WhatStaysIsVisited(codec, like, next, tables[1..], last, id);
      VisitedLater(page.records, Follow(codec, like, next, tables[1..]), id);
    }
  }

  // ----- what a request gets, told by the table and the wanted rows alone -----

  // A request that names no place to continue from.
  predicate IsFresh(q: Query) {
    q.cursor == None || q.cursor == Some("")
  }

  ghost predicate WantedAbove(like: Like, q: Query, table: seq<StoredRow>, bound: int, row: StoredRow) {
    row in table && Wanted(like, q, row) && row.id > bound
  }

  // The page holds the first wanted rows above the bound, as many as the limit allows, in id order; it
  // has a next cursor exactly when a wanted row above the bound is missing.
  ghost predicate IsPage(like: Like, q: Query, table: seq<StoredRow>, bound: int, page: Page) {
    && Ordered(page.records) && |page.records| <= q.limit
    && (forall row :: row in page.records ==> WantedAbove(like, q, table, bound, row))
    && (forall row :: WantedAbove(like, q, table, bound, row) && row !in page.records ==>
          |page.records| == q.limit && forall shown :: shown in page.records ==> shown.id < row.id)
    && (page.nextCursor.Some?
        <==> exists row :: WantedAbove(like, q, table, bound, row) && row !in page.records)
  }

  lemma CutIsPage(like: Like, q: Query, table: seq<StoredRow>, bound: int, m: seq<StoredRow>, page: Page)
    requires Ordered(m) && forall row :: row in m <==> WantedAbove(like, q, table, bound, row)
    requires page.records == if |m| <= q.limit then m else m[..q.limit]
    requires page.nextCursor.Some? <==> |m| > q.limit
    ensures IsPage(like, q, table, bound, page)
  {
    assert forall k :: 0 <= k < |page.records| ==> page.records[k] == m[k];
    forall row | row in m && row !in page.records
      ensures |page.records| == q.limit && forall shown :: shown in page.records ==> shown.id < row.id
    {
      var k :| 0 <= k < |m| && m[k] == row;
    }
    if |m| > q.limit {
      var row := m[q.limit];
      assert row in m && forall k :: 0 <= k < q.limit ==> page.records[k].id < row.id;
      assert WantedAbove(like, q, table, bound, row) && row !in page.records;
    }
  }

  lemma MatchesAbove(codec: Codec, like: Like, q: Query, table: seq<StoredRow>, after: Option<nat>)
    requires Ordered(table)
    ensures var bound := if after.Some? then after.value else -1;
            IsPage(like, q, table, bound, PageOf(codec, Matches(like, q, table, after), q.limit))
  {
    var bound := if after.Some? then after.value else -1;
    var m := Matches(like, q, table, after);
    MatchesAre(like, q, table, after);
    forall row ensures row in m <==> WantedAbove(like, q, table, bound, row) {
    }
    CutIsPage(like, q, table, bound, m, PageOf(codec, m, q.limit));
  }

  // A request without a cursor never fails, and gets the first wanted rows of the whole table.
  lemma FreshSearchIsFirstPage(codec: Codec, like: Like, q: Query, table: seq<StoredRow>)
    requires Ordered(table) && IsFresh(q)
    ensures SearchResult(codec, like, q, table).Ok?
    ensures IsPage(like, q, table, -1, SearchResult(codec, like, q, table).value)
  {
    MatchesAbove(codec, like, q, table, None);
  }

  // A request with a cursor fails exactly when the cursor is no safe, non-negative integer, and gets the
  // first wanted rows above that integer otherwise.
  lemma CursorSearchIsNextPage(codec: Codec, like: Like, q: Query, table: seq<StoredRow>)
    requires Ordered(table) && !IsFresh(q)
    ensures var r, place := SearchResult(codec, like, q, table), codec.decode(q.cursor.value);
            if place.Some? && 0 <= place.value <= 9_007_199_254_740_991 then
              r.Ok? && IsPage(like, q, table, place.value, r.value)
            else r == Err(InvalidCursor)
  {
    var start := DecodeCursor(codec, q.cursor.value);
    if start.Ok? {
      MatchesAbove(codec, like, q, table, Some(start.value));
    }
  }

  // While the table stays as it is, a complete walk from a request without a cursor visits every wanted
  // row of the table exactly once, in id order, and nothing else.
  lemma FreshWalkVisitsAll(codec: Codec, like: Like, q: Query, table: seq<StoredRow>, tables: seq<seq<StoredRow>>)
    requires RoundTrips(codec) && Ordered(table) && SafeIds(table) && AllAre(tables, table) && q.limit >= 1
    requires IsFresh(q)
    ensures var walk := Follow(codec, like, q, tables);
            && Ordered(walk.visited)
            && (forall row :: row in walk.visited ==> row in table && Wanted(like, q, row))
            && (walk.complete ==> forall row :: row in table && Wanted(like, q, row) ==> row in walk.visited)
            && (|tables| > |table| ==> walk.complete)
  {
    PagesTileTheMatches(codec, like, q, table, tables, None);
    MatchesAre(like, q, table, None);
    var m, walk := Matches(like, q, table, None), Follow(codec, like, q, tables);
    forall row | row in walk.visited ensures row in m {
      var k :| 0 <= k < |walk.visited| && walk.visited[k] == row;
      assert m[k] == row;
    }
    AtMostAllMatch(like, q, table, None);
    FewPages(|m|, q.limit);
  }

  lemma {:induction false} AtMostAllMatch(like: Like, q: Query, table: seq<StoredRow>, after: Option<nat>)
    ensures |Matches(like, q, table, after)| <= |table|
  {
    if table != [] {
      AtMostAllMatch(like, q, table[1..], after);
    }
  }

  lemma {:induction false} FewPages(matches: nat, limit: nat)
    requires limit >= 1
    ensures PageCount(matches, limit) <= matches + 1
  {
    if matches > limit {
      FewPages(matches - limit, limit);
    }
  }

  // A wanted row present at every request is visited by every complete walk that starts without a cursor.
  lemma FreshWalkVisitsWhatStays(
    codec: Codec, like: Like, q: Query, tables: seq<seq<StoredRow>>, id: nat)
    requires RoundTrips(codec) && AllOrdered(tables) && IsFresh(q)
    requires forall i :: 0 <= i < |tables| ==> PresentIn(like, q, tables[i], id)
    requires Follow(codec, like, q, tables).complete
    ensures Visits(Follow(codec, like, q, tables), id)
  {
    WhatStaysIsVisited(codec, like, q, tables, None, id);
  }
}
