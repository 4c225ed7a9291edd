// The canonical text read by the grammar of RFC 8259: it is a JSON text of the value it was made from, with
// ascending keys, no white space, and the shortest spelling of every character.
module JsonGrammar {
  import opened Wrappers
  import opened Sorting
  import opened CanonicalJson

  // ----- strings, section 7 of RFC 8259 -----

  function DigitValue(c: char): Option<nat> {
    if '0' <= c <= '9' then Some(c as int - '0' as int)
    else if 'a' <= c <= 'f' then Some(c as int - 'a' as int + 10)
    else if 'A' <= c <= 'F' then Some(c as int - 'A' as int + 10)
    else None
  }

  // The character with this code, if there is one.
  function CharOf(code: nat): Option<char> {
    if code < 0xD800 || 0xE000 <= code < 0x1_0000 then Some(code as char) else None
  }

  function FourDigits(s: string): Option<char>
    requires |s| >= 4
  {
    var a, b, c, d := DigitValue(s[0]), DigitValue(s[1]), DigitValue(s[2]), DigitValue(s[3]);
    if a.None? || b.None? || c.None? || d.None? then None
    else CharOf(4096 * a.value + 256 * b.value + 16 * c.value + d.value)
  }

  // What the character behind a backslash stands for.
  function ShortEscape(c: char): Option<char> {
    match c
    case '"' => Some('"')
    case '\\' => Some('\\')
    case '/' => Some('/')
    case 'b' => Some('\U{0008}')
    case 'f' => Some('\U{000C}')
    case 'n' => Some('\n')
    case 'r' => Some('\r')
    case 't' => Some('\t')
    case _ => None
  }

  datatype Token = Token(c: char, length: nat)

  // The first character that the body of a string spells, and how much of the text spells it.
  function FirstToken(s: string): (t: Option<Token>)
    requires s != ""
    ensures t.Some? ==> 1 <= t.value.length <= |s|
  {
    if s[0] == '"' || s[0] < ' ' then None
    else if s[0] != '\\' then Some(Token(s[0], 1))
    else if |s| >= 2 && ShortEscape(s[1]).Some? then Some(Token(ShortEscape(s[1]).value, 2))
    else if |s| >= 6 && s[1] == 'u' && FourDigits(s[2..6]).Some? then Some(Token(FourDigits(s[2..6]).value, 6))
    else None
  }

  // The string that a body spells.
  function Decode(s: string): Option<string>
    decreases |s|
  {
    if s == "" then Some("")
    else
      var first := FirstToken(s);
      if first.None? then None
      else
        var rest := Decode(s[first.value.length..]);
        if rest.None? then None else Some([first.value.c] + rest.value)
  }

  ghost predicate SpellsText(text: string, s: string) {
    exists body :: text == "\"" + body + "\"" && Decode(body) == Some(s)
  }

  lemma EscapeIsToken(c: char, rest: string)
    ensures FirstToken(Escape(c) + rest) == Some(Token(c, |Escape(c)|))
    ensures (Escape(c) + rest)[|Escape(c)|..] == rest
  {
    var text := Escape(c) + rest;
    assert text[0] == Escape(c)[0] && (|Escape(c)| >= 2 ==> text[1] == Escape(c)[1]);
    if |Escape(c)| == 6 {
      assert text[2..6] == ['0', '0', HexDigit(c as int / 16), HexDigit(c as int % 16)];
    }
  }

  lemma {:induction false} EscapedDecodes(s: string)
    ensures Decode(Escaped(s)) == Some(s)
  {
    if s != "" {
      EscapeIsToken(s[0], Escaped(s[1..]));
      EscapedDecodes(s[1..]);
      assert s == [s[0]] + s[1..];
    }
  }

  predicate HasCapital(s: string) {
    exists i :: 0 <= i < |s| && 'A' <= s[i] <= 'Z'
  }

  lemma OneToken(t: string, c: char)
    requires Decode(t) == Some([c])
    ensures t != "" && FirstToken(t) == Some(Token(c, |t|))
  {
    var first := FirstToken(t).value;
    var rest := Decode(t[first.length..]);
    assert [first.c] + rest.value == [c];
    assert rest.value == "" && first.c == c;
    assert t[first.length..] == "";
  }

  lemma OneCharacter(c: char, t: string)
    requires |t| == 1 && FirstToken(t) == Some(Token(c, 1))
    ensures Escape(c) == t
  {
  }

  lemma TwoCharacters(c: char, t: string)
    requires |t| == 2 && FirstToken(t) == Some(Token(c, 2))
    ensures |Escape(c)| <= 2 && (|Escape(c)| == 2 ==> t == Escape(c))
  {
    assert t == ['\\', t[1]];
  }

  lemma SixCharacters(c: char, t: string)
    requires |t| == 6 && FirstToken(t) == Some(Token(c, 6))
    ensures |Escape(c)| <= 6 && (|Escape(c)| == 6 && !HasCapital(t) ==> t == Escape(c))
  {
    if c < ' ' && !HasCapital(t) {
      SmallDigits(t, c);
    }
  }

  lemma TokenLength(t: string)
    requires t != "" && FirstToken(t).Some?
    ensures FirstToken(t).value.length in {1, 2, 6}
  {
  }

  // No other spelling of a character is shorter; one of the same length differs in the case of its
  // hexadecimal digits only.
  lemma EscapeIsShortest(c: char, t: string)
    requires Decode(t) == Some([c])
    ensures |Escape(c)| <= |t|
    ensures |Escape(c)| == |t| && !HasCapital(t) ==> t == Escape(c)
  {
    OneToken(t, c);
    TokenLength(t);
    if |t| == 1 {
      OneCharacter(c, t);
    } else if |t| == 2 {
      TwoCharacters(c, t);
    } else {
      SixCharacters(c, t);
    }
  }

  lemma SmallDigits(t: string, c: char)
    requires |t| == 6 && t[0] == '\\' && t[1] == 'u' && c < ' ' && !HasCapital(t)
    requires FourDigits(t[2..6]) == Some(c)
    ensures t == ['\\', 'u', '0', '0', HexDigit(c as int / 16), HexDigit(c as int % 16)]
  {
    var a, b := DigitValue(t[2]).value, DigitValue(t[3]).value;
    var high, low := DigitValue(t[4]).value, DigitValue(t[5]).value;
    assert t[2..6][0] == t[2] && t[2..6][1] == t[3] && t[2..6][2] == t[4] && t[2..6][3] == t[5];
    assert 4096 * a + 256 * b + 16 * high + low == c as int < 32;
    assert a == 0 && b == 0 && high == c as int / 16 && low == c as int % 16;
  }

  // ----- values, sections 2 to 6 -----

  function Joined(parts: seq<string>): string {
    if parts == [] then "" else if |parts| == 1 then parts[0] else parts[0] + "," + Joined(parts[1..])
  }

  // The text spells the value: an object lists each of its entries once, by ascending key.
  ghost predicate Spells(text: string, v: Json)
    decreases v
  {
    match v
    case Null => text == "null"
    case Bool(b) => text == if b then "true" else "false"
    case Number(numeral) => text == numeral
    case Text(s) => SpellsText(text, s)
    case Array(items) =>
      exists parts: seq<string> ::
        && |parts| == |items| && text == "[" + Joined(parts) + "]"
        && forall i | 0 <= i < |items| :: Spells(parts[i], items[i])
    case Object(entries) =>
      exists order: seq<Entry>, parts: seq<string> ::
        && multiset(order) == multiset(entries) && Ascending(Keys(order, KeyOf), TextLess)
        && |order| == |parts| && text == "{" + Joined(parts) + "}"
        && forall i | 0 <= i < |order| && order[i] in entries :: SpellsMember(parts[i], order[i])
  }

  ghost predicate SpellsMember(text: string, e: Entry)
    decreases e
  {
    exists name: string, value: string ::
      text == name + ":" + value && SpellsText(name, e.key) && Spells(value, e.value)
  }

  lemma JoinedCons(first: string, rest: seq<string>)
    ensures Joined([first] + rest) == first + if rest == [] then "" else "," + Joined(rest)
  {
    assert ([first] + rest)[1..] == rest;
    assert rest != [] ==> first + "," + Joined(rest) == first + ("," + Joined(rest));
    assert first + "" == first;
  }

  lemma {:induction false} ItemsAreJoined(whole: Json, items: seq<Json>, parts: seq<string>)
    requires |parts| == |items|
    requires forall i :: 0 <= i < |items| ==> items[i] < whole && parts[i] == Stringify(items[i])
    ensures Items(whole, items, true) == Joined(parts)
    ensures Items(whole, items, false) == if items == [] then "" else "," + Joined(parts)
    decreases |items|
  {
    if items != [] {
      ItemsAreJoined(whole, items[1..], parts[1..]);
      JoinedCons(parts[0], parts[1..]);
      assert parts == [parts[0]] + parts[1..];
      var more := Items(whole, items[1..], false);
      Reassociated(",", parts[0], more);
      assert "" + parts[0] == parts[0];
    }
  }

  // The text of one entry.
  function MemberText(e: Entry): string {
    Quote(e.key) + ":" + Stringify(e.value)
  }

  lemma MemberGoesFirst(whole: Json, entries: seq<Entry>, first: bool)
    requires entries != [] && forall i :: 0 <= i < |entries| ==> entries[i].value < whole
    ensures Members(whole, entries, first)
            == Comma(first) + (MemberText(entries[0]) + Members(whole, entries[1..], false))
  {
    var e, more := entries[0], Members(whole, entries[1..], false);
    Reassociated(Comma(first), Quote(e.key), ":");
    Reassociated(Comma(first), Quote(e.key) + ":", Stringify(e.value));
    Reassociated(Comma(first), MemberText(e), more);
  }

  lemma {:induction false} MembersAreJoined(whole: Json, entries: seq<Entry>, parts: seq<string>)
    requires |parts| == |entries|
    requires forall i :: 0 <= i < |entries| ==> entries[i].value < whole && parts[i] == MemberText(entries[i])
    ensures Members(whole, entries, true) == Joined(parts)
    ensures Members(whole, entries, false) == if entries == [] then "" else "," + Joined(parts)
    decreases |entries|
  {
    if entries != [] {
      MembersAreJoined(whole, entries[1..], parts[1..]);
      JoinedCons(parts[0], parts[1..]);
      assert parts == [parts[0]] + parts[1..];
      MemberGoesFirst(whole, entries, true);
      MemberGoesFirst(whole, entries, false);
      assert "" + (parts[0] + Members(whole, entries[1..], false)) == parts[0] + Members(whole, entries[1..], false);
    }
  }

  lemma QuoteSpells(s: string)
    ensures SpellsText(Quote(s), s)
  {
    EscapedDecodes(s);
    assert Quote(s) == "\"" + Escaped(s) + "\"";
  }

  lemma ArraySpells(items: seq<Json>)
    requires forall i :: 0 <= i < |items| ==> Spells(Stringify(items[i]), items[i])
    ensures Spells(Stringify(Array(items)), Array(items))
  {
    var v := Array(items);
    var parts := seq(|items|, i requires 0 <= i < |items| => Stringify(items[i]));
    ItemsAreJoined(v, items, parts);
    assert Stringify(v) == "[" + Joined(parts) + "]";
  }

  lemma MemberSpells(e: Entry)
    requires Spells(Stringify(e.value), e.value)
    ensures SpellsMember(MemberText(e), e)
  {
    QuoteSpells(e.key);
    assert MemberText(e) == Quote(e.key) + ":" + Stringify(e.value);
  }

  lemma OrderedMembers(entries: seq<Entry>) returns (parts: seq<string>)
    ensures var order := SortedEntries(entries);
            && |parts| == |order| && (forall i :: 0 <= i < |order| ==> parts[i] == MemberText(order[i]))
            && Stringify(Object(entries)) == "{" + Joined(parts) + "}"
  {
    var order := SortedEntries(entries);
    parts := seq(|order|, i requires 0 <= i < |order| => MemberText(order[i]));
    MembersAreJoined(Object(entries), order, parts);
  }

  lemma ObjectSpells(entries: seq<Entry>)
    requires Distinct(Keys(entries, KeyOf))
    requires forall e: Entry | e in entries :: Spells(Stringify(e.value), e.value)
    ensures Spells(Stringify(Object(entries)), Object(entries))
  {
    var order := SortedEntries(entries);
    var parts := OrderedMembers(entries);
    TextLessIsOrder();
    SortedIsAscending(entries, KeyOf, TextLess);
    forall i | 0 <= i < |order| ensures SpellsMember(parts[i], order[i]) {
      assert order[i] in entries;
      MemberSpells(order[i]);
    }
  }

  // Main result: the canonical text is a JSON text of its value.
  lemma {:induction false} StringifySpells(v: Json)
    requires Valid(v)
    ensures Spells(Stringify(v), v)
    decreases v
  {
    match v {
      case Text(s) => QuoteSpells(s);
      case Array(items) =>
        forall i | 0 <= i < |items| ensures Spells(Stringify(items[i]), items[i]) {
          assert items[i] in items;
          StringifySpells(items[i]);
        }
        ArraySpells(items);
      case Object(entries) =>
        forall e: Entry | e in entries ensures Spells(Stringify(e.value), e.value) {
          StringifySpells(e.value);
        }
        ObjectSpells(entries);
      case _ =>
    }
  }
}
