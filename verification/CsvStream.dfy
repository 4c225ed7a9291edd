// The row stream of the CSV adapters: blank lines, malformed rows, the header, the resume row and
// the limit, in the order in which the generators look at them.
module CsvStream {
  import opened Wrappers
  import opened CsvText

  datatype Config<T> = Config(
    headerInFile: bool, defaultHeader: seq<string>, acceptsHeader: seq<string> -> bool,
    mapFields: (seq<string>, seq<string>) -> Option<T>,
    startAfterRow: nat, limit: nat, reportsErrors: bool)

  datatype StreamEvent<T> = Yielded(rowNumber: nat, record: T) | Reported(rowNumber: nat) | Threw

  predicate IsSpace(c: char) {
    c in ['\t', '\n', '\U{000B}', '\U{000C}', '\r', ' ', '\U{00A0}', '\U{1680}', '\U{2028}', '\U{2029}',
          '\U{202F}', '\U{205F}', '\U{3000}', '\U{FEFF}']
    || '\U{2000}' <= c <= '\U{200A}'
  }

  predicate IsBlank(line: string) {
    line == "" || (IsSpace(line[0]) && IsBlank(line[1..]))
  }

  function WithoutMark(line: string): string {
    if line != "" && line[0] == '\U{FEFF}' then line[1..] else line
  }

  // ----- the physical lines: streamCsvFileRows -----

  datatype CsvLine = EmptyLine | BrokenLine | Fields(fields: seq<string>)

  function ReadLine(line: string): CsvLine {
    if IsBlank(line) then EmptyLine
    else match ParsedLine(WithoutMark(line))
      case Err(_) => BrokenLine
      case Ok(fields) => Fields(fields)
  }

  // The white space and line terminators of ECMAScript, by code point.
  predicate IsSpaceCode(code: int) {
    || code in {9, 10, 11, 12, 13, 32, 160, 0x1680, 0x2028, 0x2029, 0x202F, 0x205F, 0x3000, 0xFEFF}
    || 0x2000 <= code <= 0x200A
  }

  lemma {:induction false} BlankIsSpace(line: string)
    ensures IsBlank(line) <==> forall i :: 0 <= i < |line| ==> IsSpaceCode(line[i] as int)
  {
    if line != "" {
      BlankIsSpace(line[1..]);
      assert IsSpace(line[0]) <==> IsSpaceCode(line[0] as int);
      assert forall i :: 0 < i < |line| ==> line[i] == line[1..][i - 1];
    }
  }

  // A line of white space is empty. Any other line, without a byte order mark at its start, has exactly the
  // fields that it encodes, and is broken if it encodes none.
  lemma LineIsRead(line: string, fields: seq<string>)
    ensures ReadLine(line).EmptyLine? <==> forall i :: 0 <= i < |line| ==> IsSpaceCode(line[i] as int)
    ensures var text := if line != "" && line[0] as int == 0xFEFF then line[1..] else line;
            !ReadLine(line).EmptyLine? ==>
              && (ReadLine(line) == Fields(fields) <==> Encodes(text, fields))
              && (ReadLine(line).BrokenLine? ==> !Encodes(text, fields))
  {
    var text := if line != "" && line[0] as int == 0xFEFF then line[1..] else line;
    BlankIsSpace(line);
    ParserDecidesGrammar(text, fields);
    assert text == WithoutMark(line);
  }

  // Each line keeps its physical row number: blank and malformed lines still count.
  method StreamCsvFileRows(lines: seq<string>) returns (rows: seq<CsvLine>)
    ensures |rows| == |lines|
    ensures forall i :: 0 <= i < |lines| ==> rows[i] == ReadLine(lines[i])
  {
    rows := [];
    for rowNumber := 0 to |lines|
      invariant |rows| == rowNumber
      invariant forall i :: 0 <= i < rowNumber ==> rows[i] == ReadLine(lines[i])
    {
      if IsBlank(lines[rowNumber]) {
        rows := rows + [EmptyLine];
      } else {
        var parsed := ParseCsvLine(WithoutMark(lines[rowNumber]));
        rows := rows + [if parsed.Err? then BrokenLine else Fields(parsed.value)];
      }
    }
  }

  // ----- the mapped records: streamMappedCsvRecords -----

  function InitialHeader<T>(cfg: Config<T>): Option<seq<string>> {
    if cfg.headerInFile then None else Some(cfg.defaultHeader)
  }

  // What one line makes the generator do: emit, learn the header, end.
  datatype Pull<T> = Pull(events: seq<StreamEvent<T>>, header: Option<seq<string>>, ends: bool)

  function Complaint<T>(cfg: Config<T>, row: nat, header: Option<seq<string>>): Pull<T> {
    if cfg.reportsErrors then Pull([Reported(row)], header, false) else Pull([Threw], header, true)
  }

  function PullLine<T>(cfg: Config<T>, line: CsvLine, row: nat, header: Option<seq<string>>, yielded: nat): Pull<T> {
    match line
    case EmptyLine => Pull([], header, false)
    case BrokenLine => Complaint(cfg, row, header)
    case Fields(fields) =>
      if header.None? then
        if cfg.acceptsHeader(fields) then Pull([], Some(fields), false) else Pull([Threw], header, true)
      else if row <= cfg.startAfterRow then Pull([], header, false)
      else match cfg.mapFields(fields, header.value)
        case None => Complaint(cfg, row, header)
        case Some(record) => Pull([Yielded(row, record)], header, cfg.limit != 0 && yielded + 1 >= cfg.limit)
  }

  function YieldCount<T>(p: Pull<T>): nat {
    if p.events != [] && p.events[0].Yielded? then 1 else 0
  }

  function StreamFrom<T>(cfg: Config<T>, lines: seq<CsvLine>, i: nat, header: Option<seq<string>>, yielded: nat)
    : seq<StreamEvent<T>>
    requires i <= |lines|
    decreases |lines| - i
  {
    if i == |lines| then []
    else
      var p := PullLine(cfg, lines[i], i + 1, header, yielded);
      if p.ends then p.events
      else p.events + StreamFrom(cfg, lines, i + 1, p.header, yielded + YieldCount(p))
  }

  function Stream<T>(cfg: Config<T>, lines: seq<CsvLine>): seq<StreamEvent<T>> {
    StreamFrom(cfg, lines, 0, InitialHeader(cfg), 0)
  }

  lemma StreamUnfolds<T>(
    cfg: Config<T>, lines: seq<CsvLine>, i: nat, header: Option<seq<string>>, yielded: nat, events: seq<StreamEvent<T>>)
    requires i < |lines|
    ensures var p := PullLine(cfg, lines[i], i + 1, header, yielded);
            events + StreamFrom(cfg, lines, i, header, yielded)
            == if p.ends then events + p.events
               else (events + p.events) + StreamFrom(cfg, lines, i + 1, p.header, yielded + YieldCount(p))
  {
    var p := PullLine(cfg, lines[i], i + 1, header, yielded);
    if !p.ends {
      var later := StreamFrom(cfg, lines, i + 1, p.header, yielded + YieldCount(p));
      assert events + (p.events + later) == (events + p.events) + later;
    }
  }

  // The events so far and the rest of the stream make up the whole.
  ghost predicate Continues<T>(
    cfg: Config<T>, lines: seq<CsvLine>, i: nat, header: Option<seq<string>>, yielded: nat, events: seq<StreamEvent<T>>)
    requires i <= |lines|
  {
    events + StreamFrom(cfg, lines, i, header, yielded) == Stream(cfg, lines)
  }

  lemma LineContinues<T>(
    cfg: Config<T>, lines: seq<CsvLine>, i: nat, header: Option<seq<string>>, yielded: nat, events: seq<StreamEvent<T>>)
    requires i < |lines| && Continues(cfg, lines, i, header, yielded, events)
    ensures var p := PullLine(cfg, lines[i], i + 1, header, yielded);
            if p.ends then events + p.events == Stream(cfg, lines)
            else Continues(cfg, lines, i + 1, p.header, yielded + YieldCount(p), events + p.events)
  {
    StreamUnfolds(cfg, lines, i, header, yielded, events);
  }

  lemma ContinuesAtEnd<T>(
    cfg: Config<T>, lines: seq<CsvLine>, header: Option<seq<string>>, yielded: nat, events: seq<StreamEvent<T>>)
    requires Continues(cfg, lines, |lines|, header, yielded, events)
    ensures events == Stream(cfg, lines)
  {
    assert events + [] == events;
  }

  lemma ContinuesFromStart<T>(cfg: Config<T>, lines: seq<CsvLine>)
    ensures Continues(cfg, lines, 0, InitialHeader(cfg), 0, [])
  {
  }

  method StreamMappedCsvRecords<T>(cfg: Config<T>, lines: seq<CsvLine>) returns (events: seq<StreamEvent<T>>)
    ensures events == Stream(cfg, lines)
  {
    events := [];
    var header := InitialHeader(cfg);
    var yielded: nat := 0;
    ContinuesFromStart(cfg, lines);
    for rowNumber := 0 to |lines|
      invariant Continues(cfg, lines, rowNumber, header, yielded, events)
    {
      var p := PullLine(cfg, lines[rowNumber], rowNumber + 1, header, yielded);
      LineContinues(cfg, lines, rowNumber, header, yielded, events);
      events := events + p.events;
      if p.ends {
        return;
      }
      header, yielded := p.header, yielded + YieldCount(p);
    }
    ContinuesAtEnd(cfg, lines, header, yielded, events);
  }

  // ----- what each line is, independently of the resume row and the limit -----

  datatype Role<T> = Blank | BadCsv | Header(accepted: bool) | BadFields | Mapped(record: T)

  // The header that is known before line i.
  function HeaderBefore<T>(cfg: Config<T>, lines: seq<CsvLine>, i: nat): Option<seq<string>>
    requires i <= |lines|
  {
    if i == 0 then InitialHeader(cfg)
    else
      var earlier := HeaderBefore(cfg, lines, i - 1);
      if earlier.None? && lines[i - 1].Fields? then Some(lines[i - 1].fields) else earlier
  }

  // The header is the configured one, or the first line with fields.
  lemma {:induction false} HeaderIsFirstFields<T>(cfg: Config<T>, lines: seq<CsvLine>, i: nat)
    requires i <= |lines|
    ensures !cfg.headerInFile ==> HeaderBefore(cfg, lines, i) == Some(cfg.defaultHeader)
    ensures cfg.headerInFile ==>
              && (HeaderBefore(cfg, lines, i).None? <==> forall j :: 0 <= j < i ==> !lines[j].Fields?)
              && forall j :: 0 <= j < i && lines[j].Fields? && (forall k :: 0 <= k < j ==> !lines[k].Fields?) ==>
                   HeaderBefore(cfg, lines, i) == Some(lines[j].fields)
  {
    if i > 0 {
      HeaderIsFirstFields(cfg, lines, i - 1);
    }
  }

  function RoleOf<T>(cfg: Config<T>, lines: seq<CsvLine>, i: nat): Role<T>
    requires i < |lines|
  {
    match lines[i]
    case EmptyLine => Blank
    case BrokenLine => BadCsv
    case Fields(fields) =>
      var header := HeaderBefore(cfg, lines, i);
      if header.None? then Header(cfg.acceptsHeader(fields))
      else match cfg.mapFields(fields, header.value)
        case None => BadFields
        case Some(record) => Mapped(record)
  }

  // A row produces at most one event; a malformed one does so even before the resume row.
  function EventsOf<T>(role: Role<T>, row: nat, startAfterRow: nat): seq<StreamEvent<T>> {
    match role
    case Blank => []
    case BadCsv => [Reported(row)]
    case Header(accepted) => if accepted then [] else [Threw]
    case BadFields => if row <= startAfterRow then [] else [Reported(row)]
    case Mapped(record) => if row <= startAfterRow then [] else [Yielded(row, record)]
  }

  function Roles<T>(cfg: Config<T>, lines: seq<CsvLine>): (roles: seq<Role<T>>)
    ensures |roles| == |lines| && forall i :: 0 <= i < |lines| ==> roles[i] == RoleOf(cfg, lines, i)
  {
    seq(|lines|, i requires 0 <= i < |lines| => RoleOf(cfg, lines, i))
  }

  predicate Refuses<T>(role: Role<T>) {
    role.Header? && !role.accepted
  }

  function RowEvents<T>(roles: seq<Role<T>>, startAfterRow: nat, i: nat): seq<StreamEvent<T>>
    requires i <= |roles|
    decreases |roles| - i
  {
    if i == |roles| then []
    else if Refuses(roles[i]) then EventsOf(roles[i], i + 1, startAfterRow)
    else EventsOf(roles[i], i + 1, startAfterRow) + RowEvents(roles, startAfterRow, i + 1)
  }

  lemma PullFollowsRole<T>(cfg: Config<T>, lines: seq<CsvLine>, i: nat, yielded: nat)
    requires i < |lines| && cfg.reportsErrors && cfg.limit == 0
    ensures var role := RoleOf(cfg, lines, i);
            var p := PullLine(cfg, lines[i], i + 1, HeaderBefore(cfg, lines, i), yielded);
            && p.events == EventsOf(role, i + 1, cfg.startAfterRow)
            && p.ends == Refuses(role)
            && (!p.ends ==> p.header == HeaderBefore(cfg, lines, i + 1))
  {
  }

  lemma {:induction false} StreamIsRowByRow<T>(cfg: Config<T>, lines: seq<CsvLine>, i: nat, yielded: nat)
    requires i <= |lines| && cfg.reportsErrors && cfg.limit == 0
    ensures StreamFrom(cfg, lines, i, HeaderBefore(cfg, lines, i), yielded)
            == RowEvents(Roles(cfg, lines), cfg.startAfterRow, i)
    decreases |lines| - i
  {
    if i < |lines| {
      PullFollowsRole(cfg, lines, i, yielded);
      var p := PullLine(cfg, lines[i], i + 1, HeaderBefore(cfg, lines, i), yielded);
      if !p.ends {
        StreamIsRowByRow(cfg, lines, i + 1, yielded + YieldCount(p));
      }
    }
  }

  // ----- the suffix law -----

  function YieldsAfter<T>(events: seq<StreamEvent<T>>, row: nat): seq<StreamEvent<T>> {
    if events == [] then []
    else (if events[0].Yielded? && events[0].rowNumber > row then [events[0]] else []) + YieldsAfter(events[1..], row)
  }

  function StartingAfter<T>(cfg: Config<T>, row: nat): Config<T> {
    cfg.(startAfterRow := row)
  }

  lemma {:induction false} HeaderIgnoresStart<T>(cfg: Config<T>, lines: seq<CsvLine>, i: nat, row: nat)
    requires i <= |lines|
    ensures HeaderBefore(StartingAfter(cfg, row), lines, i) == HeaderBefore(cfg, lines, i)
  {
    if i > 0 {
      HeaderIgnoresStart(cfg, lines, i - 1, row);
    }
  }

  lemma RolesIgnoreStart<T>(cfg: Config<T>, lines: seq<CsvLine>, row: nat)
    ensures Roles(StartingAfter(cfg, row), lines) == Roles(cfg, lines)
  {
    forall i | 0 <= i < |lines| ensures RoleOf(StartingAfter(cfg, row), lines, i) == RoleOf(cfg, lines, i) {
      HeaderIgnoresStart(cfg, lines, i, row);
    }
  }

  lemma YieldsAfterPrepend<T>(head: seq<StreamEvent<T>>, events: seq<StreamEvent<T>>, row: nat)
    requires |head| <= 1
    ensures YieldsAfter(head + events, row) == YieldsAfter(head, row) + YieldsAfter(events, row)
  {
    if head == [] {
      assert head + events == events;
    } else {
      assert (head + events)[1..] == events && head[1..] == [];
    }
  }

  lemma RowSuffix<T>(role: Role<T>, number: nat, row: nat)
    requires number >= 1
    ensures YieldsAfter(EventsOf(role, number, row), 0) == YieldsAfter(EventsOf(role, number, 0), row)
  {
    var from, whole := EventsOf(role, number, row), EventsOf(role, number, 0);
    assert from != [] ==> from[1..] == [];
    assert whole != [] ==> whole[1..] == [];
  }

  lemma RowEventsGoOn<T>(roles: seq<Role<T>>, start: nat, i: nat, row: nat)
    requires i < |roles|
    ensures YieldsAfter(RowEvents(roles, start, i), row)
            == if Refuses(roles[i]) then YieldsAfter(EventsOf(roles[i], i + 1, start), row)
               else
                 YieldsAfter(EventsOf(roles[i], i + 1, start), row)
                 + YieldsAfter(RowEvents(roles, start, i + 1), row)
  {
    if !Refuses(roles[i]) {
      YieldsAfterPrepend(EventsOf(roles[i], i + 1, start), RowEvents(roles, start, i + 1), row);
    }
  }

  lemma {:induction false} SuffixFrom<T>(roles: seq<Role<T>>, i: nat, row: nat)
    requires i <= |roles|
    ensures YieldsAfter(RowEvents(roles, row, i), 0) == YieldsAfter(RowEvents(roles, 0, i), row)
    decreases |roles| - i
  {
    if i < |roles| {
      RowSuffix(roles[i], i + 1, row);
      RowEventsGoOn(roles, row, i, 0);
      RowEventsGoOn(roles, 0, i, row);
      if !Refuses(roles[i]) {
        SuffixFrom(roles, i + 1, row);
      }
    }
  }

  // Main law: starting after a row yields exactly the full stream's records beyond that row, in order.
  lemma ResumedStreamIsSuffix<T>(cfg: Config<T>, lines: seq<CsvLine>, row: nat)
    requires cfg.reportsErrors && cfg.limit == 0
    ensures YieldsAfter(Stream(StartingAfter(cfg, row), lines), 0)
            == YieldsAfter(Stream(StartingAfter(cfg, 0), lines), row)
  {
    StreamIsRowByRow(StartingAfter(cfg, row), lines, 0, 0);
    StreamIsRowByRow(StartingAfter(cfg, 0), lines, 0, 0);
    RolesIgnoreStart(cfg, lines, row);
    RolesIgnoreStart(cfg, lines, 0);
    SuffixFrom(Roles(cfg, lines), 0, row);
  }

  // ----- the limit -----

  function Yields<T>(events: seq<StreamEvent<T>>): nat {
    if events == [] then 0 else (if events[0].Yielded? then 1 else 0) + Yields(events[1..])
  }

  // The stream cut right behind its k-th record, or all of it when it has no more records than that.
  ghost predicate CutBehind<T>(cut: seq<StreamEvent<T>>, whole: seq<StreamEvent<T>>, k: nat) {
    && cut <= whole && Yields(cut) <= k
    && (cut != whole ==> cut != [] && cut[|cut| - 1].Yielded? && Yields(cut) == k)
  }

  function WithLimit<T>(cfg: Config<T>, limit: nat): Config<T> {
    cfg.(limit := limit)
  }

  lemma YieldsPrepend<T>(head: seq<StreamEvent<T>>, rest: seq<StreamEvent<T>>)
    requires |head| <= 1
    ensures Yields(head + rest) == Yields(head) + Yields(rest)
  {
    if head == [] {
      assert head + rest == rest;
    } else {
      assert (head + rest)[1..] == rest && head[1..] == [];
    }
  }

  lemma CutPrepend<T>(
    head: seq<StreamEvent<T>>, cut: seq<StreamEvent<T>>, whole: seq<StreamEvent<T>>, k: nat)
    requires |head| <= 1 && Yields(head) <= k && CutBehind(cut, whole, k - Yields(head))
    ensures CutBehind(head + cut, head + whole, k)
  {
    YieldsPrepend(head, cut);
    if cut != whole {
      assert (head + cut)[|head + cut| - 1] == cut[|cut| - 1];
    }
  }

  lemma PullWithLimit<T>(
    cfg: Config<T>, limited: Config<T>, line: CsvLine, row: nat, header: Option<seq<string>>, yielded: nat)
    requires cfg.limit == 0 && limited.limit > 0 && limited == WithLimit(cfg, limited.limit)
    ensures var free, cut := PullLine(cfg, line, row, header, yielded), PullLine(limited, line, row, header, yielded);
            && cut.events == free.events && cut.header == free.header && |free.events| <= 1
            && YieldCount(free) == YieldCount(cut) == Yields(free.events)
            && (free.ends ==> YieldCount(free) == 0)
            && (cut.ends <==> free.ends || (YieldCount(free) == 1 && yielded + 1 >= limited.limit))
  {
    var free := PullLine(cfg, line, row, header, yielded);
    assert free.events != [] ==> free.events[1..] == [];
  }

  lemma StreamGoesOn<T>(cfg: Config<T>, lines: seq<CsvLine>, i: nat, header: Option<seq<string>>, yielded: nat)
    requires i < |lines|
    ensures var p := PullLine(cfg, lines[i], i + 1, header, yielded);
            StreamFrom(cfg, lines, i, header, yielded)
            == if p.ends then p.events else p.events + StreamFrom(cfg, lines, i + 1, p.header, yielded + YieldCount(p))
  {
  }

  // The limited stream in terms of what the unlimited one pulls.
  lemma LimitedGoesOn<T>(
    cfg: Config<T>, limited: Config<T>, lines: seq<CsvLine>, i: nat, header: Option<seq<string>>, yielded: nat)
    requires i < |lines| && cfg.limit == 0 && yielded < limited.limit && limited == WithLimit(cfg, limited.limit)
    ensures var p := PullLine(cfg, lines[i], i + 1, header, yielded);
            var next := yielded + YieldCount(p);
            && |p.events| <= 1 && YieldCount(p) == Yields(p.events) && next <= limited.limit
            && (p.ends ==> YieldCount(p) == 0)
            && StreamFrom(limited, lines, i, header, yielded)
               == if p.ends || next == limited.limit then p.events
                  else p.events + StreamFrom(limited, lines, i + 1, p.header, next)
  {
    PullWithLimit(cfg, limited, lines[i], i + 1, header, yielded);
  }

  lemma {:induction false} LimitFrom<T>(
    cfg: Config<T>, limited: Config<T>, lines: seq<CsvLine>, i: nat, header: Option<seq<string>>, yielded: nat)
    requires i <= |lines| && cfg.limit == 0 && yielded < limited.limit && limited == WithLimit(cfg, limited.limit)
    ensures CutBehind(StreamFrom(limited, lines, i, header, yielded), StreamFrom(cfg, lines, i, header, yielded),
                      limited.limit - yielded)
    decreases |lines| - i
  {
    if i < |lines| {
      var p := PullLine(cfg, lines[i], i + 1, header, yielded);
      var next := yielded + YieldCount(p);
      StreamGoesOn(cfg, lines, i, header, yielded);
      LimitedGoesOn(cfg, limited, lines, i, header, yielded);
      if !p.ends {
        if next < limited.limit {
          LimitFrom(cfg, limited, lines, i + 1, p.header, next);
          CutPrepend(p.events, StreamFrom(limited, lines, i + 1, p.header, next),
                     StreamFrom(cfg, lines, i + 1, p.header, next), limited.limit - yielded);
        } else {
          CutAt(p.events, StreamFrom(cfg, lines, i + 1, p.header, next));
        }
      }
    }
  }

  lemma CutAt<T>(head: seq<StreamEvent<T>>, rest: seq<StreamEvent<T>>)
    requires |head| == 1 && head[0].Yielded?
    ensures CutBehind(head, head + rest, 1)
  {
    assert head[1..] == [];
  }

  // A limit cuts the stream right behind that many records, and changes nothing before.
  lemma LimitCutsTheStream<T>(cfg: Config<T>, lines: seq<CsvLine>, limit: nat)
    requires limit > 0
    ensures CutBehind(Stream(WithLimit(cfg, limit), lines), Stream(WithLimit(cfg, 0), lines), limit)
  {
    LimitFrom(WithLimit(cfg, 0), WithLimit(cfg, limit), lines, 0, InitialHeader(cfg), 0);
  }

  // ----- without an error callback -----

  ghost predicate HasNoReport<T>(events: seq<StreamEvent<T>>) {
    forall j :: 0 <= j < |events| ==> !events[j].Reported?
  }

  // The events up to the k-th, which is the first report, with an exception in its place; or all of them.
  ghost predicate StopsAt<T>(cut: seq<StreamEvent<T>>, whole: seq<StreamEvent<T>>, k: nat) {
    if k < |whole| then whole[k].Reported? && HasNoReport(whole[..k]) && cut == whole[..k] + [Threw]
    else HasNoReport(whole) && cut == whole
  }

  lemma StopsAtPrepend<T>(head: seq<StreamEvent<T>>, cut: seq<StreamEvent<T>>, whole: seq<StreamEvent<T>>, k: nat)
    requires StopsAt(cut, whole, k) && HasNoReport(head)
    ensures StopsAt(head + cut, head + whole, |head| + k)
  {
    var all := head + whole;
    if k < |whole| {
      assert all[..|head| + k] == head + whole[..k] && all[|head| + k] == whole[k];
    }
  }

  lemma CutHere<T>(report: StreamEvent<T>, rest: seq<StreamEvent<T>>)
    requires report.Reported?
    ensures StopsAt([Threw], [report] + rest, 0)
  {
    var none := ([report] + rest)[..0];
    assert none == [] && none + [Threw] == [Threw];
  }

  // One line of the stream with a callback, and of the stream without.
  lemma PullWithoutCallback<T>(
    cfg: Config<T>, silent: Config<T>, line: CsvLine, row: nat, header: Option<seq<string>>, yielded: nat)
    requires cfg.reportsErrors && silent == cfg.(reportsErrors := false)
    ensures var p, q := PullLine(cfg, line, row, header, yielded), PullLine(silent, line, row, header, yielded);
            && |p.events| <= 1
            && if p.events != [] && p.events[0].Reported? then !p.ends && q.ends && q.events == [Threw]
               else q == p && HasNoReport(p.events)
  {
  }

  function Rest<T>(cfg: Config<T>, lines: seq<CsvLine>, i: nat, p: Pull<T>, yielded: nat): seq<StreamEvent<T>>
    requires i < |lines|
  {
    if p.ends then [] else StreamFrom(cfg, lines, i + 1, p.header, yielded + YieldCount(p))
  }

  lemma StreamSplits<T>(cfg: Config<T>, lines: seq<CsvLine>, i: nat, header: Option<seq<string>>, yielded: nat)
    requires i < |lines|
    ensures var p := PullLine(cfg, lines[i], i + 1, header, yielded);
            StreamFrom(cfg, lines, i, header, yielded) == p.events + Rest(cfg, lines, i, p, yielded)
  {
    var p := PullLine(cfg, lines[i], i + 1, header, yielded);
    assert p.events + [] == p.events;
  }

  lemma SilentPull<T>(p: Pull<T>, q: Pull<T>, cut: seq<StreamEvent<T>>, whole: seq<StreamEvent<T>>, k: nat)
    returns (n: nat)
    requires |p.events| <= 1
    requires if p.events != [] && p.events[0].Reported? then q.events == [Threw] && cut == []
             else q == p && HasNoReport(p.events) && StopsAt(cut, whole, k)
    ensures StopsAt(q.events + cut, p.events + whole, n)
  {
    if p.events != [] && p.events[0].Reported? {
      assert p.events == [p.events[0]] && q.events + cut == [Threw];
      CutHere(p.events[0], whole);
      n := 0;
    } else {
      StopsAtPrepend(p.events, cut, whole, k);
      n := |p.events| + k;
    }
  }

  lemma {:induction false} SilentFrom<T>(
    cfg: Config<T>, silent: Config<T>, lines: seq<CsvLine>, i: nat, header: Option<seq<string>>, yielded: nat)
    returns (k: nat)
    requires i <= |lines| && cfg.reportsErrors && silent == cfg.(reportsErrors := false)
    ensures StopsAt(StreamFrom(silent, lines, i, header, yielded), StreamFrom(cfg, lines, i, header, yielded), k)
    decreases |lines| - i
  {
    k := 0;
    if i < |lines| {
      var p, q := PullLine(cfg, lines[i], i + 1, header, yielded), PullLine(silent, lines[i], i + 1, header, yielded);
      PullWithoutCallback(cfg, silent, lines[i], i + 1, header, yielded);
      if !q.ends {
        k := SilentFrom(cfg, silent, lines, i + 1, p.header, yielded + YieldCount(p));
      }
      k := SilentPull(p, q, Rest(silent, lines, i, q, yielded), Rest(cfg, lines, i, p, yielded), k);
      StreamSplits(cfg, lines, i, header, yielded);
      StreamSplits(silent, lines, i, header, yielded);
    }
  }

  // Without a callback the first row that would be reported ends the stream with an exception; up to there
  // nothing changes.
  lemma SilentStreamThrows<T>(cfg: Config<T>, silent: Config<T>, lines: seq<CsvLine>) returns (k: nat)
    requires cfg.reportsErrors && silent == cfg.(reportsErrors := false)
    ensures StopsAt(Stream(silent, lines), Stream(cfg, lines), k)
  {
    assert InitialHeader(silent) == InitialHeader(cfg);
    k := SilentFrom(cfg, silent, lines, 0, InitialHeader(cfg), 0);
  }

  // ----- every line is accounted for -----

  ghost predicate OccursOnce<T>(events: seq<StreamEvent<T>>, e: StreamEvent<T>) {
    exists k :: 0 <= k < |events| && events[k] == e && forall j :: 0 <= j < |events| && events[j] == e ==> j == k
  }

  ghost predicate RowsIncrease<T>(events: seq<StreamEvent<T>>, above: nat) {
    && (forall j :: 0 <= j < |events| && !events[j].Threw? ==> events[j].rowNumber > above)
    && (forall j, k :: 0 <= j < k < |events| && !events[j].Threw? && !events[k].Threw? ==>
          events[j].rowNumber < events[k].rowNumber)
  }

  lemma {:induction false} StreamedRowsIncrease<T>(roles: seq<Role<T>>, startAfterRow: nat, i: nat)
    requires i <= |roles|
    ensures RowsIncrease(RowEvents(roles, startAfterRow, i), i)
    decreases |roles| - i
  {
    if i < |roles| {
      StreamedRowsIncrease(roles, startAfterRow, i + 1);
      assert |EventsOf(roles[i], i + 1, startAfterRow)| <= 1;
    }
  }

  lemma {:induction false} EventReached<T>(roles: seq<Role<T>>, startAfterRow: nat, i: nat, n: nat, e: StreamEvent<T>)
    requires i <= n < |roles| && forall j :: 0 <= j < |roles| ==> !Refuses(roles[j])
    ensures e in EventsOf(roles[n], n + 1, startAfterRow) ==> e in RowEvents(roles, startAfterRow, i)
    decreases n - i
  {
    assert !Refuses(roles[i]);
    var here, later := EventsOf(roles[i], i + 1, startAfterRow), RowEvents(roles, startAfterRow, i + 1);
    assert RowEvents(roles, startAfterRow, i) == here + later;
    if i < n {
      EventReached(roles, startAfterRow, i + 1, n, e);
      assert e in later ==> e in here + later;
    } else {
      assert e in here ==> e in here + later;
    }
  }

  lemma {:induction false} EventComesFromRow<T>(roles: seq<Role<T>>, startAfterRow: nat, i: nat, e: StreamEvent<T>)
    requires i <= |roles| && !e.Threw? && e in RowEvents(roles, startAfterRow, i)
    ensures i < e.rowNumber <= |roles|
    ensures EventsOf(roles[e.rowNumber - 1], e.rowNumber, startAfterRow) == [e]
    decreases |roles| - i
  {
    if e !in EventsOf(roles[i], i + 1, startAfterRow) {
      EventComesFromRow(roles, startAfterRow, i + 1, e);
    }
  }

  // The one event, if any, that the row with this role produces.
  ghost predicate Produces<T>(role: Role<T>, startAfterRow: nat, e: StreamEvent<T>)
    requires !e.Threw?
  {
    || (role.BadCsv? && e.Reported?)
    || (e.rowNumber > startAfterRow && role.BadFields? && e.Reported?)
    || (e.rowNumber > startAfterRow && role.Mapped? && e == Yielded(e.rowNumber, role.record))
  }

  lemma RowEventsOccurOnce<T>(roles: seq<Role<T>>, startAfterRow: nat, n: nat, e: StreamEvent<T>)
    requires n < |roles| && forall j :: 0 <= j < |roles| ==> !Refuses(roles[j])
    requires !e.Threw? && e.rowNumber == n + 1
    ensures var events := RowEvents(roles, startAfterRow, 0);
            && (Produces(roles[n], startAfterRow, e) <==> e in events)
            && (e in events <==> OccursOnce(events, e))
            && RowsIncrease(events, 0)
  {
    var events := RowEvents(roles, startAfterRow, 0);
    StreamedRowsIncrease(roles, startAfterRow, 0);
    EventReached(roles, startAfterRow, 0, n, e);
    if e in events {
      EventComesFromRow(roles, startAfterRow, 0, e);
      var k :| 0 <= k < |events| && events[k] == e;
      assert forall j :: 0 <= j < |events| && events[j] == e ==> j == k;
    }
  }

  // With an error callback, no limit and an acceptable header, every line is exactly one of: blank,
  // header, skipped, reported or yielded - and the last two appear once, in row order.
  lemma EveryLineIsAccountedFor<T>(cfg: Config<T>, lines: seq<CsvLine>, n: nat, e: StreamEvent<T>)
    requires cfg.reportsErrors && cfg.limit == 0 && n < |lines|
    requires forall j :: 0 <= j < |lines| ==> !Refuses(Roles(cfg, lines)[j])
    requires !e.Threw? && e.rowNumber == n + 1
    ensures var events := Stream(cfg, lines);
            && (Produces(RoleOf(cfg, lines, n), cfg.startAfterRow, e) <==> e in events)
            && (e in events <==> OccursOnce(events, e))
            && RowsIncrease(events, 0)
  {
    assert Stream(cfg, lines) == RowEvents(Roles(cfg, lines), cfg.startAfterRow, 0) by {
      StreamIsRowByRow(cfg, lines, 0, 0);
    }
    RowEventsOccurOnce(Roles(cfg, lines), cfg.startAfterRow, n, e);
  }
}
