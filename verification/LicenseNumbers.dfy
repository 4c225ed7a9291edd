// Normal forms of license numbers: upper-case letters and digits, or digits read as a number.
module LicenseNumbers {
  import opened Wrappers

  predicate IsCanonicalChar(c: char) {
    'A' <= c <= 'Z' || '0' <= c <= '9'
  }

  predicate IsCanonical(s: string) {
    s != "" && forall i :: 0 <= i < |s| ==> IsCanonicalChar(s[i])
  }

  // What the upper-case mapping makes of one character; it may be several characters. All that is
  // known of it: upper-case letters and digits stay what they are.
  type CaseMap = upper: char -> string | forall c :: IsCanonicalChar(c) ==> upper(c) == [c] witness c => [c]

  function ToUpper(upper: CaseMap, s: string): string {
    if s == "" then "" else upper(s[0]) + ToUpper(upper, s[1..])
  }

  function OnlyCanonical(s: string): string {
    if s == "" then ""
    else (if IsCanonicalChar(s[0]) then [s[0]] else "") + OnlyCanonical(s[1..])
  }

  function NormalizeLicenseNumber(upper: CaseMap, value: Option<string>): (r: Option<string>)
    ensures r.Some? ==> IsCanonical(r.value)
  {
    if value.None? || value.value == "" then None
    else
      var normalized := OnlyCanonical(ToUpper(upper, value.value));
      OnlyCanonicalIsCanonical(ToUpper(upper, value.value));
      if normalized != "" then Some(normalized) else None
  }

  lemma {:induction false} OnlyCanonicalIsCanonical(s: string)
    ensures OnlyCanonical(s) == "" || IsCanonical(OnlyCanonical(s))
  {
    if s != "" {
      OnlyCanonicalIsCanonical(s[1..]);
    }
  }

  lemma {:induction false} CanonicalStaysCanonical(upper: CaseMap, s: string)
    requires s == "" || IsCanonical(s)
    ensures OnlyCanonical(ToUpper(upper, s)) == s
  {
    if s != "" {
      CanonicalStaysCanonical(upper, s[1..]);
      assert ToUpper(upper, s) == [s[0]] + ToUpper(upper, s[1..]);
      assert ([s[0]] + ToUpper(upper, s[1..]))[1..] == ToUpper(upper, s[1..]);
    }
  }

  // The fixed points are the canonical numbers, so normalizing twice changes nothing more.
  lemma NormalFormsAreFixedPoints(upper: CaseMap, s: string)
    ensures NormalizeLicenseNumber(upper, Some(s)) == Some(s) <==> IsCanonical(s)
    ensures var r := NormalizeLicenseNumber(upper, Some(s)); NormalizeLicenseNumber(upper, r) == r
  {
    if IsCanonical(s) {
      CanonicalStaysCanonical(upper, s);
    }
    var r := NormalizeLicenseNumber(upper, Some(s));
    if r.Some? {
      CanonicalStaysCanonical(upper, r.value);
    }
  }

  lemma HeadAndTail(a: string, b: string)
    requires a != ""
    ensures (a + b)[0] == a[0] && (a + b)[1..] == a[1..] + b
  {
  }

  lemma {:induction false} ToUpperConcat(upper: CaseMap, a: string, b: string)
    ensures ToUpper(upper, a + b) == ToUpper(upper, a) + ToUpper(upper, b)
  {
    if a == "" {
      assert a + b == b;
    } else {
      ToUpperConcat(upper, a[1..], b);
      HeadAndTail(a, b);
      Reassociated(upper(a[0]), ToUpper(upper, a[1..]), ToUpper(upper, b));
    }
  }

  lemma {:induction false} OnlyCanonicalConcat(a: string, b: string)
    ensures OnlyCanonical(a + b) == OnlyCanonical(a) + OnlyCanonical(b)
  {
    if a == "" {
      assert a + b == b;
    } else {
      OnlyCanonicalConcat(a[1..], b);
      HeadAndTail(a, b);
      var head := if IsCanonicalChar(a[0]) then [a[0]] else "";
      Reassociated(head, OnlyCanonical(a[1..]), OnlyCanonical(b));
    }
  }

  // A stretch without letters and digits may stand anywhere in a number, or not at all.
  lemma SeparatorsDoNotMatter(upper: CaseMap, before: string, separator: string, after: string)
    requires NormalizeLicenseNumber(upper, Some(separator)).None?
    ensures NormalizeLicenseNumber(upper, Some(before + separator + after))
            == NormalizeLicenseNumber(upper, Some(before + after))
  {
    ToUpperConcat(upper, before + separator, after);
    ToUpperConcat(upper, before, separator);
    ToUpperConcat(upper, before, after);
    var b, s, a := ToUpper(upper, before), ToUpper(upper, separator), ToUpper(upper, after);
    OnlyCanonicalConcat(b + s, a);
    OnlyCanonicalConcat(b, s);
    OnlyCanonicalConcat(b, a);
    assert OnlyCanonical(s) == "";
    assert OnlyCanonical(b + s + a) == OnlyCanonical(b + a);
    assert before + after == "" ==> OnlyCanonical(b + a) == "";
    assert before + separator + after == "" ==> before + after == "";
  }

  // ----- the normal form, character by character -----

  // The letters A-Z and digits of a text, in their order.
  function LettersAndDigits(s: string): string {
    if s == "" then ""
    else
      var last := s[|s| - 1];
      LettersAndDigits(s[..|s| - 1]) + if 'A' <= last <= 'Z' || '0' <= last <= '9' then [last] else ""
  }

  // The normal form, empty if there is none.
  function NormalForm(upper: CaseMap, s: string): string {
    var r := NormalizeLicenseNumber(upper, Some(s));
    if r.Some? then r.value else ""
  }

  lemma {:induction false} OnlyCanonicalKeeps(s: string)
    ensures OnlyCanonical(s) == LettersAndDigits(s)
  {
    if s != "" {
      var front, last := s[..|s| - 1], [s[|s| - 1]];
      OnlyCanonicalKeeps(front);
      OnlyCanonicalConcat(front, last);
      assert s == front + last && last[1..] == "" && OnlyCanonical(last[1..]) == "";
    }
  }

  // A number without letters and digits has no normal form. Otherwise each character contributes the
  // letters and digits of its upper case, and nothing else is in the normal form.
  lemma NormalFormByCharacter(upper: CaseMap, c: char, s: string)
    ensures NormalizeLicenseNumber(upper, None).None?
    ensures NormalizeLicenseNumber(upper, Some(s))
            == if NormalForm(upper, s) == "" then None else Some(NormalForm(upper, s))
    ensures NormalForm(upper, "") == ""
    ensures NormalForm(upper, [c] + s) == LettersAndDigits(upper(c)) + NormalForm(upper, s)
  {
    var more := [c] + s;
    assert more[1..] == s;
    OnlyCanonicalConcat(upper(c), ToUpper(upper, s));
    OnlyCanonicalKeeps(upper(c));
  }

  // Numbers that agree in upper case, character by character, have the same normal form.
  lemma {:induction false} SpellingDoesNotMatter(upper: CaseMap, a: string, b: string)
    requires |a| == |b| && forall i :: 0 <= i < |a| ==> upper(a[i]) == upper(b[i])
    ensures NormalizeLicenseNumber(upper, Some(a)) == NormalizeLicenseNumber(upper, Some(b))
  {
    if a == "" {
      assert a == b;
    } else {
      SpellingDoesNotMatter(upper, a[1..], b[1..]);
      NormalFormByCharacter(upper, a[0], a[1..]);
      NormalFormByCharacter(upper, b[0], b[1..]);
      NormalFormByCharacter(upper, a[0], a);
      NormalFormByCharacter(upper, a[0], b);
      assert a == [a[0]] + a[1..] && b == [b[0]] + b[1..];
    }
  }

  // ----- license numbers compared as numbers -----

  predicate IsDigit(c: char) {
    '0' <= c <= '9'
  }

  predicate AllDigits(s: string) {
    forall i :: 0 <= i < |s| ==> IsDigit(s[i])
  }

  function OnlyDigits(s: string): (r: string)
    ensures AllDigits(r)
  {
    if s == "" then "" else (if IsDigit(s[0]) then [s[0]] else "") + OnlyDigits(s[1..])
  }

  function WithoutLeadingZeros(s: string): (r: string)
    ensures AllDigits(s) ==> AllDigits(r)
    ensures r == "" || r[0] != '0'
  {
    if s != "" && s[0] == '0' then WithoutLeadingZeros(s[1..]) else s
  }

  function NormalizeLicenseDigits(value: Option<string>): Option<string> {
    if value.None? || value.value == "" then None
    else
      var digits := OnlyDigits(value.value);
      if digits == "" then None
      else
        var stripped := WithoutLeadingZeros(digits);
        Some(if stripped == "" then "0" else stripped)
  }

  // The number that a string of digits denotes.
  function Denotes(digits: string): (n: nat)
    requires AllDigits(digits)
  {
    if digits == "" then 0
    else 10 * Denotes(digits[..|digits| - 1]) + (digits[|digits| - 1] - '0') as nat
  }

  lemma {:induction false} LeadingZeroDenotesNothing(digits: string)
    requires AllDigits(digits)
    ensures Denotes("0" + digits) == Denotes(digits)
  {
    var d := "0" + digits;
    if digits == "" {
      assert Denotes(d) == 10 * Denotes(d[..0]) + 0;
    } else {
      LeadingZeroDenotesNothing(digits[..|digits| - 1]);
      assert d[..|d| - 1] == "0" + digits[..|digits| - 1];
    }
  }

  lemma {:induction false} StrippingKeepsNumber(digits: string)
    requires AllDigits(digits)
    ensures Denotes(WithoutLeadingZeros(digits)) == Denotes(digits)
  {
    if digits != "" && digits[0] == '0' {
      StrippingKeepsNumber(digits[1..]);
      LeadingZeroDenotesNothing(digits[1..]);
      assert digits == "0" + digits[1..];
    }
  }

  lemma {:induction false} StrippedIsPositive(a: string)
    requires AllDigits(a) && a != "" && a[0] != '0'
    ensures Denotes(a) >= 1
  {
    if |a| > 1 {
      StrippedIsPositive(a[..|a| - 1]);
    } else {
      assert Denotes(a[..0]) == 0;
    }
  }

  lemma {:induction false} StrippedIsUnique(a: string, b: string)
    requires AllDigits(a) && AllDigits(b) && (a == "" || a[0] != '0') && (b == "" || b[0] != '0')
    requires Denotes(a) == Denotes(b)
    ensures a == b
  {
    if a == "" || b == "" {
      if a != "" {
        StrippedIsPositive(a);
      }
      if b != "" {
        StrippedIsPositive(b);
      }
    } else {
      var x, y := a[..|a| - 1], b[..|b| - 1];
      StrippedIsUnique(x, y);
      assert a == x + [a[|a| - 1]] && b == y + [b[|b| - 1]];
    }
  }

  // The digits of a text, in their order.
  function DigitsIn(s: string): string {
    if s == "" then ""
    else
      var last := s[|s| - 1];
      DigitsIn(s[..|s| - 1]) + if '0' <= last <= '9' then [last] else ""
  }

  lemma {:induction false} OnlyDigitsConcat(a: string, b: string)
    ensures OnlyDigits(a + b) == OnlyDigits(a) + OnlyDigits(b)
  {
    if a == "" {
      assert a + b == b;
    } else {
      OnlyDigitsConcat(a[1..], b);
      HeadAndTail(a, b);
      Reassociated(if IsDigit(a[0]) then [a[0]] else "", OnlyDigits(a[1..]), OnlyDigits(b));
    }
  }

  lemma {:induction false} OnlyDigitsKeeps(s: string)
    ensures OnlyDigits(s) == DigitsIn(s)
  {
    if s != "" {
      var front, last := s[..|s| - 1], [s[|s| - 1]];
      OnlyDigitsKeeps(front);
      OnlyDigitsConcat(front, last);
      assert s == front + last && last[1..] == "" && OnlyDigits(last[1..]) == "";
    }
  }

  // The digit form is the number that the digits denote, written without leading zeros.
  lemma DigitFormDenotes(s: string)
    ensures AllDigits(DigitsIn(s)) && NormalizeLicenseDigits(None).None?
    ensures var r := NormalizeLicenseDigits(Some(s));
            && (r.None? <==> DigitsIn(s) == "")
            && (r.Some? ==>
                  && AllDigits(r.value) && r.value != "" && (r.value[0] == '0' ==> r.value == "0")
                  && Denotes(r.value) == Denotes(DigitsIn(s)))
  {
    OnlyDigitsKeeps(s);
    StrippingKeepsNumber(OnlyDigits(s));
    LeadingZeroDenotesNothing("");
  }

  // Two license numbers have the same digit form exactly when both have digits that denote the
  // same number, or neither has any.
  lemma DigitFormIsTheNumber(a: string, b: string)
    ensures AllDigits(DigitsIn(a)) && AllDigits(DigitsIn(b))
    ensures NormalizeLicenseDigits(Some(a)) == NormalizeLicenseDigits(Some(b))
            <==> (DigitsIn(a) == "" <==> DigitsIn(b) == "") && Denotes(DigitsIn(a)) == Denotes(DigitsIn(b))
  {
    var x, y := OnlyDigits(a), OnlyDigits(b);
    OnlyDigitsKeeps(a);
    OnlyDigitsKeeps(b);
    StrippingKeepsNumber(x);
    StrippingKeepsNumber(y);
    if Denotes(x) == Denotes(y) {
      StrippedIsUnique(WithoutLeadingZeros(x), WithoutLeadingZeros(y));
    }
  }
}
