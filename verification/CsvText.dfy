// One line of CSV: the scanner of parseCsvLine, the grammar it accepts, and the cells that the
// export writes.
module CsvText {
  import opened Wrappers

  datatype CsvError = UnexpectedQuote(at: nat) | CharacterAfterQuote(at: nat) | UnterminatedQuote

  datatype Scan = Scan(values: seq<string>, current: string, inQuotes: bool, quotedFieldClosed: bool)

  // ----- the scanner -----

  function ScanText(rest: string, at: nat, s: Scan): Result<seq<string>, CsvError>
    decreases |rest|
  {
    if rest == [] then
      if s.inQuotes then Err(UnterminatedQuote) else Ok(s.values + [s.current])
    else if rest[0] == '"' then
      if s.inQuotes && |rest| > 1 && rest[1] == '"' then
        ScanText(rest[2..], at + 2, s.(current := s.current + "\""))
      else if s.inQuotes then
        ScanText(rest[1..], at + 1, s.(inQuotes := false, quotedFieldClosed := true))
      else if s.current == "" && !s.quotedFieldClosed then
        ScanText(rest[1..], at + 1, s.(inQuotes := true))
      else
        Err(UnexpectedQuote(at + 1))
    else if rest[0] == ',' && !s.inQuotes then
      ScanText(rest[1..], at + 1, Scan(s.values + [s.current], "", false, false))
    else if s.quotedFieldClosed then
      Err(CharacterAfterQuote(at + 1))
    else
      ScanText(rest[1..], at + 1, s.(current := s.current + [rest[0]]))
  }

  function ParsedLine(line: string): Result<seq<string>, CsvError> {
    ScanText(line, 0, Scan([], "", false, false))
  }

  // ----- the grammar: comma-joined fields, bare or quoted with inner quotes doubled -----

  datatype Field = Bare(text: string) | Quoted(text: string)

  predicate Plain(text: string) {
    '"' !in text && ',' !in text
  }

  predicate WellFormed(fields: seq<Field>) {
    fields != [] && forall f :: f in fields && f.Bare? ==> Plain(f.text)
  }

  function Doubled(text: string): string {
    if text == "" then ""
    else (if text[0] == '"' then "\"\"" else [text[0]]) + Doubled(text[1..])
  }

  function Render(field: Field): string {
    match field
    case Bare(text) => text
    case Quoted(text) => "\"" + Doubled(text) + "\""
  }

  function RenderLine(fields: seq<Field>): string
    requires fields != []
  {
    if |fields| == 1 then Render(fields[0]) else Render(fields[0]) + "," + RenderLine(fields[1..])
  }

  function Texts(fields: seq<Field>): seq<string> {
    if fields == [] then [] else [fields[0].text] + Texts(fields[1..])
  }

  // ----- every rendered line is accepted, with its texts -----

  lemma {:induction false} ScanBare(text: string, rest: string, at: nat, s: Scan)
    requires Plain(text) && !s.inQuotes && !s.quotedFieldClosed
    ensures ScanText(text + rest, at, s) == ScanText(rest, at + |text|, s.(current := s.current + text))
    decreases |text|
  {
    if text == "" {
      assert text + rest == rest && s.current + text == s.current;
    } else {
      assert (text + rest)[1..] == text[1..] + rest;
      assert s.current + [text[0]] + text[1..] == s.current + text;
      ScanBare(text[1..], rest, at + 1, s.(current := s.current + [text[0]]));
    }
  }

  lemma {:induction false} ScanQuoted(text: string, rest: string, at: nat, s: Scan)
    requires s.inQuotes && !s.quotedFieldClosed
    ensures ScanText(Doubled(text) + rest, at, s)
            == ScanText(rest, at + |Doubled(text)|, s.(current := s.current + text))
    decreases |text|
  {
    if text == "" {
      assert Doubled(text) + rest == rest && s.current + text == s.current;
    } else {
      var head := if text[0] == '"' then "\"\"" else [text[0]];
      assert Doubled(text) + rest == head + (Doubled(text[1..]) + rest);
      assert (Doubled(text) + rest)[|head|..] == Doubled(text[1..]) + rest;
      assert s.current + [text[0]] + text[1..] == s.current + text;
      ScanQuoted(text[1..], rest, at + |head|, s.(current := s.current + [text[0]]));
    }
  }

  lemma ScanOpeningQuote(rest: string, at: nat, values: seq<string>)
    ensures ScanText("\"" + rest, at, Scan(values, "", false, false))
            == ScanText(rest, at + 1, Scan(values, "", true, false))
  {
    assert ("\"" + rest)[1..] == rest;
  }

  lemma ScanClosingQuote(rest: string, at: nat, values: seq<string>, text: string)
    requires rest == "" || rest[0] == ','
    ensures ScanText("\"" + rest, at, Scan(values, text, true, false))
            == ScanText(rest, at + 1, Scan(values, text, false, true))
  {
    assert ("\"" + rest)[1..] == rest;
  }

  lemma ScanQuotedField(text: string, rest: string, at: nat, values: seq<string>)
    requires rest == "" || rest[0] == ','
    ensures ScanText("\"" + (Doubled(text) + ("\"" + rest)), at, Scan(values, "", false, false))
            == ScanText(rest, at + |Doubled(text)| + 2, Scan(values, text, false, true))
  {
    ScanOpeningQuote(Doubled(text) + ("\"" + rest), at, values);
    ScanQuoted(text, "\"" + rest, at + 1, Scan(values, "", true, false));
    assert "" + text == text;
    ScanClosingQuote(rest, at + 1 + |Doubled(text)|, values, text);
  }

  lemma RenderedQuotes(text: string, rest: string)
    ensures Render(Quoted(text)) + rest == "\"" + (Doubled(text) + ("\"" + rest))
    ensures |Render(Quoted(text))| == |Doubled(text)| + 2
  {
  }

  // A field up to the comma or the end of the line.
  lemma ScanField(field: Field, rest: string, at: nat, values: seq<string>)
    requires field.Bare? ==> Plain(field.text)
    requires rest == "" || rest[0] == ','
    ensures ScanText(Render(field) + rest, at, Scan(values, "", false, false))
            == ScanText(rest, at + |Render(field)|, Scan(values, field.text, false, field.Quoted?))
  {
    assert "" + field.text == field.text;
    match field {
      case Bare(text) =>
        ScanBare(text, rest, at, Scan(values, "", false, false));
      case Quoted(text) =>
        RenderedQuotes(text, rest);
        ScanQuotedField(text, rest, at, values);
    }
  }

  lemma ScanComma(rest: string, at: nat, s: Scan)
    requires !s.inQuotes
    ensures ScanText("," + rest, at, s) == ScanText(rest, at + 1, Scan(s.values + [s.current], "", false, false))
  {
    assert ("," + rest)[1..] == rest;
  }

  lemma RenderCons(first: Field, rest: seq<Field>)
    requires rest != []
    ensures RenderLine([first] + rest) == Render(first) + ("," + RenderLine(rest))
    ensures Texts([first] + rest) == [first.text] + Texts(rest)
  {
    assert ([first] + rest)[1..] == rest;
    assert Render(first) + "," + RenderLine(rest) == Render(first) + ("," + RenderLine(rest));
  }

  lemma ScanFirst(first: Field, rest: seq<Field>, at: nat, values: seq<string>)
    requires rest != [] && (first.Bare? ==> Plain(first.text))
    ensures ScanText(RenderLine([first] + rest), at, Scan(values, "", false, false))
            == ScanText(RenderLine(rest), at + |Render(first)| + 1, Scan(values + [first.text], "", false, false))
  {
    RenderCons(first, rest);
    ScanField(first, "," + RenderLine(rest), at, values);
    ScanComma(RenderLine(rest), at + |Render(first)|, Scan(values, first.text, false, first.Quoted?));
  }

  lemma ScanOnly(field: Field, at: nat, values: seq<string>)
    requires field.Bare? ==> Plain(field.text)
    ensures ScanText(RenderLine([field]), at, Scan(values, "", false, false)) == Ok(values + Texts([field]))
  {
    ScanField(field, "", at, values);
    assert Render(field) + "" == RenderLine([field]) && Texts([field]) == [field.text];
  }

  lemma {:induction false} ScanRendered(fields: seq<Field>, at: nat, values: seq<string>)
    requires WellFormed(fields)
    ensures ScanText(RenderLine(fields), at, Scan(values, "", false, false)) == Ok(values + Texts(fields))
    decreases |fields|
  {
    var first, rest := fields[0], fields[1..];
    assert fields == [first] + rest && (first.Bare? ==> Plain(first.text));
    if rest == [] {
      ScanOnly(first, at, values);
    } else {
      ScanFirst(first, rest, at, values);
      ScanRendered(rest, at + |Render(first)| + 1, values + [first.text]);
      assert values + [first.text] + Texts(rest) == values + Texts(fields);
    }
  }

  // ----- every accepted line was rendered -----

  lemma {:induction false} DoubledAppend(text: string, c: char)
    ensures Doubled(text + [c]) == Doubled(text) + if c == '"' then "\"\"" else [c]
  {
    if text == "" {
      assert text + [c] == [c] && [c][1..] == "";
    } else {
      assert (text + [c])[1..] == text[1..] + [c];
      DoubledAppend(text[1..], c);
    }
  }

  // The part of the current field that the scanner has already read.
  function Consumed(s: Scan): string {
    if s.inQuotes then "\"" + Doubled(s.current)
    else if s.quotedFieldClosed then "\"" + Doubled(s.current) + "\""
    else s.current
  }

  ghost predicate ValidScan(s: Scan) {
    && !(s.inQuotes && s.quotedFieldClosed)
    && (!s.inQuotes && !s.quotedFieldClosed ==> Plain(s.current))
  }

  function CurrentField(s: Scan): Field {
    if s.quotedFieldClosed then Quoted(s.current) else Bare(s.current)
  }

  // Every step but the comma moves text from the rest of the line to the current field.
  lemma StepConsumes(s: Scan, head: string, rest: string, s': Scan)
    requires Consumed(s') == Consumed(s) + head
    ensures Consumed(s) + (head + rest) == Consumed(s') + rest
  {
  }

  lemma CommaEndsField(s: Scan, rest: string, tail: seq<Field>)
    requires ValidScan(s) && !s.inQuotes && WellFormed(tail) && "" + rest == RenderLine(tail)
    ensures var fields := [CurrentField(s)] + tail;
            && WellFormed(fields) && Consumed(s) + ("," + rest) == RenderLine(fields)
            && s.values + [s.current] + Texts(tail) == s.values + Texts(fields)
  {
    RenderCons(CurrentField(s), tail);
  }

  lemma {:induction false} AcceptedIsRendered(rest: string, at: nat, s: Scan) returns (fields: seq<Field>)
    requires ValidScan(s) && ScanText(rest, at, s).Ok?
    ensures WellFormed(fields) && Consumed(s) + rest == RenderLine(fields)
    ensures ScanText(rest, at, s) == Ok(s.values + Texts(fields))
    decreases |rest|
  {
    if rest == "" {
      fields := [CurrentField(s)];
      assert Texts(fields) == [s.current];
    } else if rest[0] == ',' && !s.inQuotes {
      var tail := AcceptedIsRendered(rest[1..], at + 1, Scan(s.values + [s.current], "", false, false));
      fields := [CurrentField(s)] + tail;
      CommaEndsField(s, rest[1..], tail);
      assert rest == "," + rest[1..];
    } else if s.inQuotes && |rest| > 1 && rest[0] == '"' && rest[1] == '"' {
      var s' := s.(current := s.current + "\"");
      DoubledAppend(s.current, '"');
      StepConsumes(s, "\"\"", rest[2..], s');
      assert rest == "\"\"" + rest[2..];
      fields := AcceptedIsRendered(rest[2..], at + 2, s');
    } else {
      var s' := if rest[0] != '"' then s.(current := s.current + [rest[0]])
                else if s.inQuotes then s.(inQuotes := false, quotedFieldClosed := true)
                else s.(inQuotes := true);
      DoubledAppend(s.current, rest[0]);
      StepConsumes(s, [rest[0]], rest[1..], s');
      assert rest == [rest[0]] + rest[1..];
      fields := AcceptedIsRendered(rest[1..], at + 1, s');
    }
  }

  // ----- the main results about one line -----

  ghost predicate Encodes(line: string, values: seq<string>) {
    exists fields :: WellFormed(fields) && line == RenderLine(fields) && values == Texts(fields)
  }

  // The parser accepts exactly the grammar, and returns the only decoding there is.
  lemma ParserDecidesGrammar(line: string, values: seq<string>)
    ensures ParsedLine(line) == Ok(values) <==> Encodes(line, values)
  {
    if Encodes(line, values) {
      var fields :| WellFormed(fields) && line == RenderLine(fields) && values == Texts(fields);
      ScanRendered(fields, 0, []);
      assert [] + Texts(fields) == Texts(fields);
    }
    if ParsedLine(line) == Ok(values) {
      var fields := AcceptedIsRendered(line, 0, Scan([], "", false, false));
      assert "" + line == line && [] + Texts(fields) == Texts(fields);
    }
  }

  // ----- where an error is -----

  function Position(e: CsvError): nat
    requires !e.UnterminatedQuote?
  {
    e.at
  }

  // One step of the scanner: how many characters it takes, and what it leaves.
  function StepLength(rest: string, s: Scan): nat
    requires rest != ""
  {
    if rest[0] == '"' && s.inQuotes && |rest| > 1 && rest[1] == '"' then 2 else 1
  }

  predicate Offends(c: char, s: Scan) {
    !s.inQuotes && if c == '"' then s.current != "" || s.quotedFieldClosed else c != ',' && s.quotedFieldClosed
  }

  function AfterStep(rest: string, s: Scan): Scan
    requires rest != "" && !Offends(rest[0], s)
  {
    if rest[0] == '"' && s.inQuotes then
      if StepLength(rest, s) == 2 then s.(current := s.current + "\"")
      else s.(inQuotes := false, quotedFieldClosed := true)
    else if rest[0] == '"' then s.(inQuotes := true)
    else if rest[0] == ',' && !s.inQuotes then Scan(s.values + [s.current], "", false, false)
    else s.(current := s.current + [rest[0]])
  }

  predicate Sound(s: Scan) {
    !(s.inQuotes && s.quotedFieldClosed)
  }

  lemma StepScans(rest: string, at: nat, s: Scan)
    requires rest != "" && Sound(s) && !Offends(rest[0], s)
    ensures var d := StepLength(rest, s);
            ScanText(rest, at, s) == ScanText(rest[d..], at + d, AfterStep(rest, s)) && Sound(AfterStep(rest, s))
  {
  }

  // The step does not see what comes after the character that follows it.
  lemma StepLooksNoFurther(rest: string, other: string, s: Scan)
    requires rest != "" && other != "" && rest[0] == other[0] && !Offends(rest[0], s)
    requires |other| > 1 ==> |rest| > 1 && rest[1] == other[1]
    requires |other| == 1 ==> StepLength(rest, s) == 1
    ensures StepLength(other, s) == StepLength(rest, s) && AfterStep(other, s) == AfterStep(rest, s)
  {
  }

  // What a changed continuation of the text starts with, step by step.
  lemma SameStep(rest: string, other: string, at: nat, s: Scan)
    requires rest != "" && other != "" && rest[0] == other[0] && Sound(s) && !Offends(rest[0], s)
    requires |other| > 1 ==> |rest| > 1 && rest[1] == other[1]
    requires |other| == 1 ==> StepLength(rest, s) == 1
    ensures var d := StepLength(rest, s); ScanText(other, at, s) == ScanText(other[d..], at + d, AfterStep(rest, s))
  {
    StepScans(other, at, s);
    StepLooksNoFurther(rest, other, s);
  }

  lemma {:induction false} ErrorPosition(rest: string, at: nat, s: Scan)
    requires Sound(s) && ScanText(rest, at, s).Err? && !ScanText(rest, at, s).error.UnterminatedQuote?
    ensures at < Position(ScanText(rest, at, s).error) <= at + |rest|
    decreases |rest|
  {
    if !Offends(rest[0], s) {
      StepScans(rest, at, s);
      ErrorPosition(rest[StepLength(rest, s)..], at + StepLength(rest, s), AfterStep(rest, s));
    }
  }

  // The text before the position is a line by itself.
  lemma {:induction false} TextBeforeIsAccepted(rest: string, at: nat, s: Scan, j: nat)
    requires Sound(s) && ScanText(rest, at, s).Err? && !ScanText(rest, at, s).error.UnterminatedQuote?
    requires j < |rest| && Position(ScanText(rest, at, s).error) == at + j + 1
    ensures ScanText(rest[..j], at, s).Ok?
    decreases |rest|
  {
    if !Offends(rest[0], s) {
      var d := StepLength(rest, s);
      StepScans(rest, at, s);
      ErrorPosition(rest[d..], at + d, AfterStep(rest, s));
      SameStep(rest, rest[..j], at, s);
      TextBeforeIsAccepted(rest[d..], at + d, AfterStep(rest, s), j - d);
      assert rest[..j][d..] == rest[d..][..j - d];
    }
  }

  // Nothing that follows makes the text up to the position a line.
  lemma {:induction false} TextThroughIsRefused(rest: string, at: nat, s: Scan, j: nat, more: string)
    requires Sound(s) && ScanText(rest, at, s).Err? && !ScanText(rest, at, s).error.UnterminatedQuote?
    requires j < |rest| && Position(ScanText(rest, at, s).error) == at + j + 1
    ensures ScanText(rest[..j + 1] + more, at, s) == ScanText(rest, at, s)
    decreases |rest|
  {
    if !Offends(rest[0], s) {
      var d, other := StepLength(rest, s), rest[..j + 1] + more;
      StepScans(rest, at, s);
      ErrorPosition(rest[d..], at + d, AfterStep(rest, s));
      SameStep(rest, other, at, s);
      TextThroughIsRefused(rest[d..], at + d, AfterStep(rest, s), j - d, more);
      assert other[d..] == rest[d..][..j - d + 1] + more;
    }
  }

  lemma {:induction false} QuoteCompletes(rest: string, at: nat, s: Scan)
    requires Sound(s) && ScanText(rest, at, s) == Err(UnterminatedQuote)
    ensures ScanText(rest + "\"", at, s).Ok?
    decreases |rest|
  {
    if rest == "" {
      var closed := s.(inQuotes := false, quotedFieldClosed := true);
      assert "\""[1..] == "" && ScanText("", at + 1, closed).Ok?;
    } else {
      var d, other := StepLength(rest, s), rest + "\"";
      StepScans(rest, at, s);
      ClosedAtEnd(rest, at, s);
      SameStepLonger(rest, other, at, s);
      QuoteCompletes(rest[d..], at + d, AfterStep(rest, s));
      assert other[d..] == rest[d..] + "\"";
    }
  }

  // Only a line that ends inside quotes is unterminated, so its last quote does not close a field.
  lemma ClosedAtEnd(rest: string, at: nat, s: Scan)
    requires rest != "" && Sound(s) && ScanText(rest, at, s) == Err(UnterminatedQuote)
    ensures !(s.inQuotes && rest == "\"")
  {
  }

  lemma SameStepLonger(rest: string, other: string, at: nat, s: Scan)
    requires rest != "" && Sound(s) && !Offends(rest[0], s) && !(s.inQuotes && rest == "\"")
    requires |other| > |rest| && other[..|rest|] == rest
    ensures var d := StepLength(rest, s); ScanText(other, at, s) == ScanText(other[d..], at + d, AfterStep(rest, s))
  {
    assert other[0] == rest[0] && (|rest| > 1 ==> other[1] == rest[1]);
    StepScans(other, at, s);
  }

  // An error names the first offending character: the text before it is a line, the text through it
  // begins none. An unterminated quote has no such character; one more quote completes the line.
  lemma ErrorIsFirstOffence(line: string, more: string)
    requires ParsedLine(line).Err?
    ensures match ParsedLine(line).error
            case UnterminatedQuote => ParsedLine(line + "\"").Ok?
            case e =>
              && 0 < Position(e) <= |line|
              && ParsedLine(line[..Position(e) - 1]).Ok?
              && ParsedLine(line[..Position(e)] + more) == Err(e)
  {
    var s := Scan([], "", false, false);
    if ParsedLine(line).error.UnterminatedQuote? {
      QuoteCompletes(line, 0, s);
    } else {
      ErrorPosition(line, 0, s);
      var j := Position(ParsedLine(line).error) - 1;
      TextBeforeIsAccepted(line, 0, s, j);
      TextThroughIsRefused(line, 0, s, j, more);
    }
  }

  method ParseCsvLine(line: string) returns (r: Result<seq<string>, CsvError>)
    ensures r == ParsedLine(line)
    ensures r.Ok? ==> Encodes(line, r.value)
    ensures r.Err? ==> forall values :: !Encodes(line, values)
  {
    var values: seq<string>, current, inQuotes, quotedFieldClosed := [], "", false, false;
    forall v: seq<string> ensures ParsedLine(line) == Ok(v) <==> Encodes(line, v) {
      ParserDecidesGrammar(line, v);
    }
    var index := 0;
    while index < |line|
      invariant 0 <= index <= |line|
      invariant ScanText(line[index..], index, Scan(values, current, inQuotes, quotedFieldClosed)) == ParsedLine(line)
    {
      var character := line[index];
      assert line[index..][0] == character && line[index..][1..] == line[index + 1..];
      index := index + 1;
      if character == '"' {
        if inQuotes && index < |line| && line[index] == '"' {
          assert line[index - 1..][1] == '"' && line[index - 1..][2..] == line[index + 1..];
          current := current + "\"";
          index := index + 1;
        } else if inQuotes {
          inQuotes, quotedFieldClosed := false, true;
        } else if current == "" && !quotedFieldClosed {
          inQuotes := true;
        } else {
          return Err(UnexpectedQuote(index));
        }
      } else if character == ',' && !inQuotes {
        values, current, quotedFieldClosed := values + [current], "", false;
      } else if quotedFieldClosed {
        return Err(CharacterAfterQuote(index));
      } else {
        current := current + [character];
      }
    }
    r := if inQuotes then Err(UnterminatedQuote) else Ok(values + [current]);
  }

  // ----- exported cells -----

  const FORMULA_STARTS := ['=', '+', '-', '@', '\t', '\r']

  function Guarded(value: string): string {
    if value != "" && value[0] in FORMULA_STARTS then "'" + value else value
  }

  predicate NeedsQuotes(value: string) {
    '"' in value || ',' in value || '\n' in value || '\r' in value
  }

  function CsvCell(value: string): string {
    var safe := Guarded(value);
    if !NeedsQuotes(safe) then safe else "\"" + Doubled(safe) + "\""
  }

  function CsvRow(values: seq<string>): string
    requires values != []
  {
    if |values| == 1 then CsvCell(values[0]) else CsvCell(values[0]) + "," + CsvRow(values[1..])
  }

  function GuardedRow(values: seq<string>): seq<string> {
    if values == [] then [] else [Guarded(values[0])] + GuardedRow(values[1..])
  }

  lemma {:induction false} RowIsRendered(values: seq<string>) returns (fields: seq<Field>)
    requires values != []
    ensures WellFormed(fields) && CsvRow(values) == RenderLine(fields) && Texts(fields) == GuardedRow(values)
    decreases |values|
  {
    var safe := Guarded(values[0]);
    var first := if NeedsQuotes(safe) then Quoted(safe) else Bare(safe);
    if |values| == 1 {
      fields := [first];
      assert Texts(fields[1..]) == [] == GuardedRow(values[1..]);
    } else {
      var rest := RowIsRendered(values[1..]);
      fields := [first] + rest;
      assert fields[1..] == rest;
    }
  }

  // Round trip for arbitrary cells, quotes, commas and line breaks included.
  lemma ParsingExportedRow(values: seq<string>)
    requires values != []
    ensures ParsedLine(CsvRow(values)) == Ok(GuardedRow(values))
  {
    var fields := RowIsRendered(values);
    ParserDecidesGrammar(CsvRow(values), GuardedRow(values));
  }

  lemma {:induction false} GuardedRowChanges(values: seq<string>)
    ensures GuardedRow(values) == values
            <==> forall v :: v in values ==> v == "" || v[0] !in FORMULA_STARTS
  {
    if values != [] {
      GuardedRowChanges(values[1..]);
      assert values == [values[0]] + values[1..];
      if GuardedRow(values) == values {
        assert Guarded(values[0]) == values[0];
        assert GuardedRow(values)[1..] == GuardedRow(values[1..]);
      }
    }
  }

  // What a spreadsheet takes for a formula, and what has to stand in quotes.
  predicate LooksLikeFormula(value: string) {
    value != "" && value[0] in "=+-@\t\r"
  }

  predicate IsDelicate(value: string) {
    exists i :: 0 <= i < |value| && value[i] in "\",\n\r"
  }

  // A cell is written as it is, behind an apostrophe if it looks like a formula; it stands in quotes, with
  // its own quotes doubled, exactly when it has a quote, a comma or a line break.
  lemma CellIsWritten(value: string)
    ensures var safe := if LooksLikeFormula(value) then "'" + value else value;
            CsvCell(value) == if IsDelicate(safe) then Render(Quoted(safe)) else safe
  {
    var safe := if LooksLikeFormula(value) then "'" + value else value;
    assert safe == Guarded(value);
    assert NeedsQuotes(safe) <==> IsDelicate(safe) by {
      assert forall i :: 0 <= i < |safe| ==> safe[i] in safe;
      if '"' in safe || ',' in safe || '\n' in safe || '\r' in safe {
        var i :| 0 <= i < |safe| && safe[i] in "\",\n\r";
      }
    }
  }

  // The row comes back unchanged exactly when no cell looks like a formula; an apostrophe goes before the
  // cells that do, and nothing else changes.
  lemma ExportedRowIsFaithful(values: seq<string>)
    requires values != []
    ensures ParsedLine(CsvRow(values)) == Ok(values) <==> forall v :: v in values ==> !LooksLikeFormula(v)
    ensures var r := ParsedLine(CsvRow(values));
            && r.Ok? && |r.value| == |values|
            && forall i :: 0 <= i < |values| ==>
                 r.value[i] == if LooksLikeFormula(values[i]) then "'" + values[i] else values[i]
  {
    ParsingExportedRow(values);
    GuardedRowChanges(values);
    assert forall v: string :: LooksLikeFormula(v) <==> v != "" && v[0] in FORMULA_STARTS;
    forall i | 0 <= i < |values|
      ensures |GuardedRow(values)| == |values| && GuardedRow(values)[i] == Guarded(values[i])
    {
      GuardedAt(values, i);
    }
  }

  lemma {:induction false} GuardedAt(values: seq<string>, i: nat)
    requires i < |values|
    ensures |GuardedRow(values)| == |values| && GuardedRow(values)[i] == Guarded(values[i])
  {
    if i > 0 {
      GuardedAt(values[1..], i - 1);
    } else if |values| > 1 {
      GuardedAt(values[1..], 0);
    }
  }
}
