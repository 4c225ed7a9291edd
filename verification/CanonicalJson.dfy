// The text that record fingerprints hash: JSON with the keys of every object sorted. Two values
// have the same text exactly when they are equal with objects read as maps.
module CanonicalJson {
  import opened Wrappers
  import opened Sorting

  datatype Entry = Entry(key: string, value: Json)

  // An object lists its entries in whatever order its keys were added.
  datatype Json =
    | Null
    | Bool(b: bool)
    | Number(numeral: string)
    | Text(text: string)
    | Array(items: seq<Json>)
    | Object(entries: seq<Entry>)

  predicate IsNumeralChar(c: char) {
    '0' <= c <= '9' || c in ['-', '+', '.', 'e', 'E']
  }

  predicate IsNumeral(s: string) {
    s != "" && (s[0] == '-' || '0' <= s[0] <= '9') && forall i :: 0 <= i < |s| ==> IsNumeralChar(s[i])
  }

  ghost predicate Valid(v: Json)
    decreases v
  {
    match v
    case Number(numeral) => IsNumeral(numeral)
    case Array(items) => forall item | item in items :: Valid(item)
    case Object(entries) =>
      && (forall i, j :: 0 <= i < j < |entries| ==> entries[i].key != entries[j].key)
      && forall e: Entry | e in entries :: Valid(e.value)
    case _ => true
  }

  // ----- strings, as JSON.stringify writes them -----

  function HexDigit(n: nat): char
    requires n < 16
  {
    if n < 10 then ('0' as int + n) as char else ('a' as int + (n - 10)) as char
  }

  function Escape(c: char): string {
    if c == '"' then "\\\""
    else if c == '\\' then "\\\\"
    else if c == '\U{0008}' then "\\b"
    else if c == '\U{000C}' then "\\f"
    else if c == '\n' then "\\n"
    else if c == '\r' then "\\r"
    else if c == '\t' then "\\t"
    else if c < ' ' then ['\\', 'u', '0', '0', HexDigit(c as int / 16), HexDigit(c as int % 16)]
    else [c]
  }

  function Escaped(s: string): string {
    if s == "" then "" else Escape(s[0]) + Escaped(s[1..])
  }

  function Quote(s: string): string {
    "\"" + Escaped(s) + "\""
  }

  // ----- stableStringify -----

  function KeyOf(e: Entry): string {
    e.key
  }

  function SortedEntries(entries: seq<Entry>): (r: seq<Entry>)
    ensures multiset(r) == multiset(entries)
    ensures forall i :: 0 <= i < |r| ==> r[i] in entries && r[i].value < Object(entries)
  {
    var r := SortByKey(entries, KeyOf, TextLess);
    SameMembers(r, entries);
    assert forall i :: 0 <= i < |r| ==> r[i] in r;
    r
  }

  function Stringify(v: Json): string
    decreases v, 1, 0
  {
    match v
    case Null => "null"
    case Bool(b) => if b then "true" else "false"
    case Number(numeral) => numeral
    case Text(text) => Quote(text)
    case Array(items) => "[" + Items(v, items, true) + "]"
    case Object(entries) =>
      "{" + Members(v, SortedEntries(entries), true) + "}"
  }

  function Comma(first: bool): string {
    if first then "" else ","
  }

  // The items joined by commas; first says that none stands before them.
  function Items(whole: Json, items: seq<Json>, first: bool): string
    requires forall i :: 0 <= i < |items| ==> items[i] < whole
    decreases whole, 0, |items|
  {
    if items == [] then ""
    else Comma(first) + Stringify(items[0]) + Items(whole, items[1..], false)
  }

  function Members(whole: Json, entries: seq<Entry>, first: bool): string
    requires forall i :: 0 <= i < |entries| ==> entries[i].value < whole
    decreases whole, 0, |entries|
  {
    if entries == [] then ""
    else
      Comma(first) + Quote(entries[0].key) + ":" + Stringify(entries[0].value)
      + Members(whole, entries[1..], false)
  }

  // ----- equality with objects read as maps -----

  // Where the object has the key; its length if it does not.
  function IndexOf(entries: seq<Entry>, key: string): (i: nat)
    ensures i <= |entries|
    ensures i < |entries| ==> entries[i].key == key
    ensures i == |entries| ==> forall j :: 0 <= j < |entries| ==> entries[j].key != key
  {
    if entries == [] then 0 else if entries[0].key == key then 0 else 1 + IndexOf(entries[1..], key)
  }

  ghost predicate Same(a: Json, b: Json)
    decreases a
  {
    match a
    case Array(items) =>
      && b.Array? && |items| == |b.items|
      && forall i | 0 <= i < |items| :: Same(items[i], b.items[i])
    case Object(entries) =>
      && b.Object?
      && (forall j | 0 <= j < |b.entries| :: IndexOf(entries, b.entries[j].key) < |entries|)
      && forall i | 0 <= i < |entries| ::
           var j := IndexOf(b.entries, entries[i].key);
           j < |b.entries| && Same(entries[i].value, b.entries[j].value)
    case _ => a == b
  }

  // ----- a text and what follows it determine each other -----

  // What may follow a value: the end, or a separator or closing bracket around it.
  predicate AfterValue(rest: string) {
    rest == "" || rest[0] in [',', ']', '}']
  }

  lemma EscapeUnambiguous(c: char, d: char, u: string, v: string)
    requires Escape(c) + u == Escape(d) + v
    ensures c == d && u == v
  {
    var left, right := Escape(c) + u, Escape(d) + v;
    assert left[0] == Escape(c)[0] && right[0] == Escape(d)[0];
    if |Escape(c)| > 1 && |Escape(d)| > 1 {
      assert left[1] == Escape(c)[1] && right[1] == Escape(d)[1];
      if Escape(c)[1] == 'u' {
        assert left[4] == Escape(c)[4] && right[4] == Escape(d)[4];
        assert left[5] == Escape(c)[5] && right[5] == Escape(d)[5];
      }
    }
    assert u == left[|Escape(c)|..] && v == right[|Escape(d)|..];
  }

  lemma Cancel(prefix: string, u: string, v: string)
    requires prefix + u == prefix + v
    ensures u == v
  {
    assert u == (prefix + u)[|prefix|..] && v == (prefix + v)[|prefix|..];
  }

  lemma EscapeStart(c: char, rest: string)
    ensures (Escape(c) + rest)[0] != '"'
  {
    assert (Escape(c) + rest)[0] == Escape(c)[0];
  }

  lemma EscapedFirst(s: string, rest: string)
    requires s != ""
    ensures Escaped(s) + rest == Escape(s[0]) + (Escaped(s[1..]) + rest)
    ensures (Escaped(s) + rest)[0] != '"'
  {
    var head, tail := Escape(s[0]), Escaped(s[1..]);
    assert (head + tail) + rest == head + (tail + rest);
    EscapeStart(s[0], tail + rest);
  }

  lemma {:induction false} EscapedUnambiguous(s: string, t: string, u: string, v: string)
    requires Escaped(s) + ("\"" + u) == Escaped(t) + ("\"" + v)
    ensures s == t && u == v
    decreases |s|
  {
    if s != "" {
      EscapedFirst(s, "\"" + u);
    }
    if t != "" {
      EscapedFirst(t, "\"" + v);
    }
    if s == "" {
      assert Escaped(s) + ("\"" + u) == "\"" + u && Escaped(t) + ("\"" + v) == "\"" + v;
      Cancel("\"", u, v);
    } else {
      EscapeUnambiguous(s[0], t[0], Escaped(s[1..]) + ("\"" + u), Escaped(t[1..]) + ("\"" + v));
      EscapedUnambiguous(s[1..], t[1..], u, v);
      assert s == [s[0]] + s[1..] && t == [t[0]] + t[1..];
    }
  }

  lemma QuoteSplit(s: string, rest: string)
    ensures Quote(s) + rest == "\"" + (Escaped(s) + ("\"" + rest))
  {
  }

  lemma QuoteUnambiguous(s: string, t: string, u: string, v: string)
    requires Quote(s) + u == Quote(t) + v
    ensures s == t && u == v
  {
    QuoteSplit(s, u);
    QuoteSplit(t, v);
    Cancel("\"", Escaped(s) + ("\"" + u), Escaped(t) + ("\"" + v));
    EscapedUnambiguous(s, t, u, v);
  }

  lemma NumeralUnambiguous(s: string, t: string, u: string, v: string)
    requires IsNumeral(s) && IsNumeral(t) && AfterValue(u) && AfterValue(v) && s + u == t + v
    ensures s == t && u == v
  {
    var whole := s + u;
    assert forall i :: 0 <= i < |s| ==> whole[i] == s[i];
    assert forall i :: 0 <= i < |t| ==> whole[i] == t[i];
    assert u != "" ==> whole[|s|] == u[0];
    assert v != "" ==> whole[|t|] == v[0];
    assert |s| == |t|;
    assert s == whole[..|s|] && u == whole[|s|..];
  }

  // The first character tells the kind of value, and closes or separates nothing.
  lemma FirstCharacter(v: Json, rest: string)
    requires Valid(v)
    ensures Stringify(v) != ""
    ensures var c := (Stringify(v) + rest)[0];
            && (v.Null? <==> c == 'n') && (v.Bool? <==> c == 't' || c == 'f')
            && (v.Number? <==> c == '-' || '0' <= c <= '9') && (v.Text? <==> c == '"')
            && (v.Array? <==> c == '[') && (v.Object? <==> c == '{')
            && c !in [',', ']', '}']
  {
    assert Stringify(v) != "" && (Stringify(v) + rest)[0] == Stringify(v)[0];
  }

  lemma BoolUnambiguous(a: Json, b: Json, x: string, y: string)
    requires a.Bool? && b.Bool? && Stringify(a) + x == Stringify(b) + y
    ensures a == b && x == y
  {
    assert (Stringify(a) + x)[0] == Stringify(a)[0] && (Stringify(b) + y)[0] == Stringify(b)[0];
    assert (Stringify(a) + x)[|Stringify(a)|..] == x && (Stringify(b) + y)[|Stringify(b)|..] == y;
  }

  lemma ArrayText(items: seq<Json>, rest: string)
    ensures Stringify(Array(items)) + rest == "[" + (Items(Array(items), items, true) + ("]" + rest))
  {
  }

  lemma ObjectText(entries: seq<Entry>, rest: string)
    ensures Stringify(Object(entries)) + rest
            == "{" + (Members(Object(entries), SortedEntries(entries), true) + ("}" + rest))
  {
  }

  lemma ItemsText(whole: Json, items: seq<Json>, first: bool, rest: string)
    requires items != [] && forall i :: 0 <= i < |items| ==> items[i] < whole
    ensures Items(whole, items, first) + rest
            == Comma(first) + (Stringify(items[0]) + (Items(whole, items[1..], false) + rest))
  {
  }

  lemma EntryRegrouped(comma: string, key: string, value: string, more: string, rest: string)
    ensures comma + key + ":" + value + more + rest == comma + (key + (":" + (value + (more + rest))))
  {
    Reassociated(comma + key + ":" + value, more, rest);
    Reassociated(comma + key + ":", value, more + rest);
    Reassociated(comma + key, ":", value + (more + rest));
    Reassociated(comma, key, ":" + (value + (more + rest)));
  }

  lemma MembersText(whole: Json, entries: seq<Entry>, first: bool, rest: string)
    requires entries != [] && forall i :: 0 <= i < |entries| ==> entries[i].value < whole
    ensures Members(whole, entries, first) + rest
            == Comma(first) + (Quote(entries[0].key)
                               + (":" + (Stringify(entries[0].value) + (Members(whole, entries[1..], false) + rest))))
  {
    EntryRegrouped(Comma(first), Quote(entries[0].key), Stringify(entries[0].value),
                   Members(whole, entries[1..], false), rest);
  }

  // Whether more items or members follow shows in the next character.
  lemma ItemsEnd(whole: Json, items: seq<Json>, first: bool, x: string)
    requires forall i :: 0 <= i < |items| ==> items[i] < whole && Valid(items[i])
    ensures AfterValue(Items(whole, items, false) + ("]" + x))
    ensures items == [] <==> (Items(whole, items, first) + ("]" + x))[0] == ']'
    ensures items == [] ==> Items(whole, items, first) + ("]" + x) == "]" + x
  {
    if items != [] {
      ItemsText(whole, items, first, "]" + x);
      ItemsText(whole, items, false, "]" + x);
      FirstCharacter(items[0], Items(whole, items[1..], false) + ("]" + x));
    }
  }

  lemma MembersEnd(whole: Json, entries: seq<Entry>, first: bool, x: string)
    requires forall i :: 0 <= i < |entries| ==> entries[i].value < whole
    ensures AfterValue(Members(whole, entries, false) + ("}" + x))
    ensures entries == [] <==> (Members(whole, entries, first) + ("}" + x))[0] == '}'
    ensures entries == [] ==> Members(whole, entries, first) + ("}" + x) == "}" + x
  {
    if entries != [] {
      MembersText(whole, entries, first, "}" + x);
      MembersText(whole, entries, false, "}" + x);
    }
  }

  lemma {:induction false} Unambiguous(a: Json, b: Json, x: string, y: string)
    requires Valid(a) && Valid(b) && AfterValue(x) && AfterValue(y) && Stringify(a) + x == Stringify(b) + y
    ensures Same(a, b) && x == y
    decreases a, 1, 0
  {
    FirstCharacter(a, x);
    FirstCharacter(b, y);
    match a {
      case Null =>
        Cancel("null", x, y);
      case Bool(_) =>
        BoolUnambiguous(a, b, x, y);
      case Number(numeral) =>
        NumeralUnambiguous(numeral, b.numeral, x, y);
      case Text(text) =>
        QuoteUnambiguous(text, b.text, x, y);
      case Array(items) =>
        ArrayText(items, x);
        ArrayText(b.items, y);
        Cancel("[", Items(a, items, true) + ("]" + x), Items(b, b.items, true) + ("]" + y));
        ItemsUnambiguous(a, items, b, b.items, true, x, y);
      case Object(entries) =>
        var es, fs := SortedEntries(entries), SortedEntries(b.entries);
        ObjectText(entries, x);
        ObjectText(b.entries, y);
        Cancel("{", Members(a, es, true) + ("}" + x), Members(b, fs, true) + ("}" + y));
        MembersUnambiguous(a, es, b, fs, true, x, y);
        SameFromMembers(a, es, b, fs);
    }
  }

  // Equal texts of two item lists start with equal items and go on with equal texts.
  lemma FirstItems(
    a: Json, items: seq<Json>, b: Json, others: seq<Json>, first: bool, x: string, y: string)
    returns (u: string, v: string)
    requires items != [] && forall i :: 0 <= i < |items| ==> items[i] < a && Valid(items[i])
    requires others != [] && forall i :: 0 <= i < |others| ==> others[i] < b && Valid(others[i])
    requires Items(a, items, first) + ("]" + x) == Items(b, others, first) + ("]" + y)
    ensures u == Items(a, items[1..], false) + ("]" + x) && v == Items(b, others[1..], false) + ("]" + y)
    ensures Stringify(items[0]) + u == Stringify(others[0]) + v
    ensures AfterValue(u) && AfterValue(v)
  {
    u, v := Items(a, items[1..], false) + ("]" + x), Items(b, others[1..], false) + ("]" + y);
    ItemsText(a, items, first, "]" + x);
    ItemsText(b, others, first, "]" + y);
    Cancel(Comma(first), Stringify(items[0]) + u, Stringify(others[0]) + v);
    ItemsEnd(a, items[1..], false, x);
    ItemsEnd(b, others[1..], false, y);
  }

  lemma {:induction false} ItemsUnambiguous(
    a: Json, items: seq<Json>, b: Json, others: seq<Json>, first: bool, x: string, y: string)
    requires forall i :: 0 <= i < |items| ==> items[i] < a && Valid(items[i])
    requires forall i :: 0 <= i < |others| ==> others[i] < b && Valid(others[i])
    requires Items(a, items, first) + ("]" + x) == Items(b, others, first) + ("]" + y)
    ensures |items| == |others| && x == y
    ensures forall i :: 0 <= i < |items| ==> Same(items[i], others[i])
    decreases a, 0, |items|
  {
    ItemsEnd(a, items, first, x);
    ItemsEnd(b, others, first, y);
    if items == [] {
      Cancel("]", x, y);
    } else {
      var u, v := FirstItems(a, items, b, others, first, x, y);
      Unambiguous(items[0], others[0], u, v);
      ItemsUnambiguous(a, items[1..], b, others[1..], false, x, y);
    }
  }

  // Two members with a comma before them: the keys agree, and so does what follows them.
  lemma MemberUnambiguous(first: bool, k: string, l: string, s: string, t: string)
    requires Comma(first) + (Quote(k) + (":" + s)) == Comma(first) + (Quote(l) + (":" + t))
    ensures k == l && s == t
  {
    Cancel(Comma(first), Quote(k) + (":" + s), Quote(l) + (":" + t));
    QuoteUnambiguous(k, l, ":" + s, ":" + t);
    Cancel(":", s, t);
  }

  // Equal texts of two member lists start with equal members and go on with equal texts.
  lemma FirstMembers(
    a: Json, entries: seq<Entry>, b: Json, others: seq<Entry>, first: bool, x: string, y: string)
    returns (u: string, v: string)
    requires entries != [] && forall i :: 0 <= i < |entries| ==> entries[i].value < a && Valid(entries[i].value)
    requires others != [] && forall i :: 0 <= i < |others| ==> others[i].value < b && Valid(others[i].value)
    requires Members(a, entries, first) + ("}" + x) == Members(b, others, first) + ("}" + y)
    ensures u == Members(a, entries[1..], false) + ("}" + x) && v == Members(b, others[1..], false) + ("}" + y)
    ensures entries[0].key == others[0].key && Stringify(entries[0].value) + u == Stringify(others[0].value) + v
    ensures AfterValue(u) && AfterValue(v)
  {
    u, v := Members(a, entries[1..], false) + ("}" + x), Members(b, others[1..], false) + ("}" + y);
    MembersText(a, entries, first, "}" + x);
    MembersText(b, others, first, "}" + y);
    MemberUnambiguous(first, entries[0].key, others[0].key,
                      Stringify(entries[0].value) + u, Stringify(others[0].value) + v);
    MembersEnd(a, entries[1..], false, x);
    MembersEnd(b, others[1..], false, y);
  }

  lemma {:induction false} MembersUnambiguous(
    a: Json, entries: seq<Entry>, b: Json, others: seq<Entry>, first: bool, x: string, y: string)
    requires forall i :: 0 <= i < |entries| ==> entries[i].value < a && Valid(entries[i].value)
    requires forall i :: 0 <= i < |others| ==> others[i].value < b && Valid(others[i].value)
    requires Members(a, entries, first) + ("}" + x) == Members(b, others, first) + ("}" + y)
    ensures |entries| == |others| && x == y
    ensures forall i :: 0 <= i < |entries| ==>
              entries[i].key == others[i].key && Same(entries[i].value, others[i].value)
    decreases a, 0, |entries|
  {
    MembersEnd(a, entries, first, x);
    MembersEnd(b, others, first, y);
    if entries == [] {
      Cancel("}", x, y);
    } else {
      var u, v := FirstMembers(a, entries, b, others, first, x, y);
      Unambiguous(entries[0].value, others[0].value, u, v);
      MembersUnambiguous(a, entries[1..], b, others[1..], false, x, y);
    }
  }

  lemma OnlyIndex(entries: seq<Entry>, e: Entry)
    requires e in entries && Valid(Object(entries))
    ensures IndexOf(entries, e.key) < |entries| && entries[IndexOf(entries, e.key)] == e
  {
  }

  // The aligned entries es and fs are the entries of a and b in some order.
  lemma SameFromMembers(a: Json, es: seq<Entry>, b: Json, fs: seq<Entry>)
    requires a.Object? && b.Object? && Valid(a) && Valid(b) && |es| == |fs|
    requires multiset(es) == multiset(a.entries) && multiset(fs) == multiset(b.entries)
    requires forall i :: 0 <= i < |es| ==> es[i].key == fs[i].key && Same(es[i].value, fs[i].value)
    ensures Same(a, b)
  {
    forall i | 0 <= i < |a.entries|
      ensures var j := IndexOf(b.entries, a.entries[i].key);
              j < |b.entries| && Same(a.entries[i].value, b.entries[j].value)
    {
      StillMember(a.entries, es, a.entries[i]);
      var n :| 0 <= n < |es| && es[n] == a.entries[i];
      StillMember(fs, b.entries, fs[n]);
      OnlyIndex(b.entries, fs[n]);
    }
    forall j | 0 <= j < |b.entries| ensures IndexOf(a.entries, b.entries[j].key) < |a.entries| {
      StillMember(b.entries, fs, b.entries[j]);
      var n :| 0 <= n < |fs| && fs[n] == b.entries[j];
      StillMember(es, a.entries, es[n]);
      OnlyIndex(a.entries, es[n]);
    }
  }

  // ----- equal values have equal texts -----

  lemma SortedKeysDetermined(a: seq<Entry>, b: seq<Entry>)
    requires Distinct(Keys(a, KeyOf)) && Distinct(Keys(b, KeyOf))
    requires forall k :: k in Keys(a, KeyOf) <==> k in Keys(b, KeyOf)
    ensures Keys(SortedEntries(a), KeyOf) == Keys(SortedEntries(b), KeyOf)
  {
    var es, fs := SortedEntries(a), SortedEntries(b);
    TextLessIsOrder();
    SortedIsAscending(a, KeyOf, TextLess);
    SortedIsAscending(b, KeyOf, TextLess);
    SameKeyMembers(a, es);
    SameKeyMembers(b, fs);
    AscendingIsUnique(Keys(es, KeyOf), Keys(fs, KeyOf), TextLess);
  }

  lemma SameKeyMembers(a: seq<Entry>, b: seq<Entry>)
    requires multiset(a) == multiset(b)
    ensures forall k :: k in Keys(a, KeyOf) <==> k in Keys(b, KeyOf)
  {
    SameMembers(a, b);
    forall k ensures k in Keys(a, KeyOf) <==> k in Keys(b, KeyOf) {
      KeyInKeys(a, KeyOf, k);
      KeyInKeys(b, KeyOf, k);
    }
  }

  lemma SameObjectKeys(a: Json, b: Json)
    requires a.Object? && b.Object? && Same(a, b)
    ensures forall k :: k in Keys(a.entries, KeyOf) <==> k in Keys(b.entries, KeyOf)
  {
    forall k ensures k in Keys(a.entries, KeyOf) <==> k in Keys(b.entries, KeyOf) {
      var ks, ls := Keys(a.entries, KeyOf), Keys(b.entries, KeyOf);
      if k in ks {
        var i :| 0 <= i < |ks| && ks[i] == k;
        assert ls[IndexOf(b.entries, a.entries[i].key)] == k;
      }
      if k in ls {
        var j :| 0 <= j < |ls| && ls[j] == k;
        assert ks[IndexOf(a.entries, b.entries[j].key)] == k;
      }
    }
  }

  lemma DistinctKeys(v: Json)
    requires v.Object? && Valid(v)
    ensures Distinct(Keys(v.entries, KeyOf))
  {
  }

  // Same objects, listed in the order of the same keys, agree position by position.
  lemma SameObjectsAlign(a: Json, es: seq<Entry>, b: Json, fs: seq<Entry>)
    requires a.Object? && b.Object? && Valid(a) && Valid(b) && Same(a, b)
    requires multiset(es) == multiset(a.entries) && multiset(fs) == multiset(b.entries)
    requires Keys(es, KeyOf) == Keys(fs, KeyOf)
    ensures |es| == |fs|
    ensures forall i :: 0 <= i < |es| ==>
               && es[i].value < a && fs[i].value < b && es[i].key == fs[i].key
               && Valid(es[i].value) && Valid(fs[i].value) && Same(es[i].value, fs[i].value)
  {
    SameMembers(es, a.entries);
    SameMembers(fs, b.entries);
    assert |es| == |Keys(es, KeyOf)| == |fs|;
    forall i | 0 <= i < |es|
      ensures && es[i].value < a && fs[i].value < b && es[i].key == fs[i].key
              && Valid(es[i].value) && Valid(fs[i].value) && Same(es[i].value, fs[i].value)
    {
      assert Keys(es, KeyOf)[i] == es[i].key && Keys(fs, KeyOf)[i] == fs[i].key;
      assert es[i] in a.entries && fs[i] in b.entries;
      OnlyIndex(a.entries, es[i]);
      OnlyIndex(b.entries, fs[i]);
      assert Same(a.entries[IndexOf(a.entries, es[i].key)].value, b.entries[IndexOf(b.entries, fs[i].key)].value);
    }
  }

  lemma {:induction false} SameText(a: Json, b: Json)
    requires Valid(a) && Valid(b) && Same(a, b)
    ensures Stringify(a) == Stringify(b)
    decreases a, 1, 0
  {
    match a {
      case Array(items) =>
        SameItemsText(a, items, b, b.items, true);
      case Object(entries) =>
        var es, fs := SortedEntries(entries), SortedEntries(b.entries);
        SameObjectKeys(a, b);
        DistinctKeys(a);
        DistinctKeys(b);
        SortedKeysDetermined(entries, b.entries);
        SameObjectsAlign(a, es, b, fs);
        SameMembersText(a, es, b, fs, true);
      case _ =>
    }
  }

  lemma {:induction false} SameItemsText(a: Json, items: seq<Json>, b: Json, others: seq<Json>, first: bool)
    requires |items| == |others|
    requires forall i :: 0 <= i < |items| ==>
               items[i] < a && others[i] < b && Valid(items[i]) && Valid(others[i]) && Same(items[i], others[i])
    ensures Items(a, items, first) == Items(b, others, first)
    decreases a, 0, |items|
  {
    if items != [] {
      SameText(items[0], others[0]);
      SameItemsText(a, items[1..], b, others[1..], false);
    }
  }

  lemma {:induction false} SameMembersText(a: Json, entries: seq<Entry>, b: Json, others: seq<Entry>, first: bool)
    requires |entries| == |others|
    requires forall i :: 0 <= i < |entries| ==>
               && entries[i].value < a && others[i].value < b && entries[i].key == others[i].key
               && Valid(entries[i].value) && Valid(others[i].value) && Same(entries[i].value, others[i].value)
    ensures Members(a, entries, first) == Members(b, others, first)
    decreases a, 0, |entries|
  {
    if entries != [] {
      SameText(entries[0].value, others[0].value);
      SameMembersText(a, entries[1..], b, others[1..], false);
    }
  }

  // Main theorem: the text decides equality, whatever order the keys were added in.
  lemma TextDecidesEquality(a: Json, b: Json)
    requires Valid(a) && Valid(b)
    ensures Stringify(a) == Stringify(b) <==> Same(a, b)
  {
    if Stringify(a) == Stringify(b) {
      Unambiguous(a, b, "", "");
    }
    if Same(a, b) {
      SameText(a, b);
    }
  }

  // In particular, adding the same entries in another order leaves the fingerprint alone.
  lemma KeyOrderIsIrrelevant(entries: seq<Entry>, others: seq<Entry>)
    requires Valid(Object(entries)) && Valid(Object(others)) && multiset(entries) == multiset(others)
    ensures Stringify(Object(entries)) == Stringify(Object(others))
  {
    SameMembers(entries, others);
    forall i | 0 <= i < |entries| ensures Same(entries[i].value, entries[i].value) {
      SameIsReflexive(entries[i].value);
    }
    SameFromMembers(Object(entries), entries, Object(others), entries);
    TextDecidesEquality(Object(entries), Object(others));
  }

  lemma {:induction false} SameIsReflexive(v: Json)
    requires Valid(v)
    ensures Same(v, v)
    decreases v
  {
    match v {
      case Array(items) =>
        forall i | 0 <= i < |items| ensures Same(items[i], items[i]) {
          SameIsReflexive(items[i]);
        }
      case Object(entries) =>
        forall i | 0 <= i < |entries| ensures Same(entries[i].value, entries[i].value) {
          SameIsReflexive(entries[i].value);
        }
        forall i | 0 <= i < |entries| ensures entries[IndexOf(entries, entries[i].key)] == entries[i] {
          OnlyIndex(entries, entries[i]);
        }
      case _ =>
    }
  }
}
