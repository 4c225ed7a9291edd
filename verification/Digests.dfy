// Digests and their hexadecimal spelling, and lower case.
module Digests {
  import opened Wrappers

  function LowerCase(s: string): string {
    if s == "" then ""
    else [if 'A' <= s[0] <= 'Z' then (s[0] as int + 32) as char else s[0]] + LowerCase(s[1..])
  }

  function HexValue(c: char): int {
    if '0' <= c <= '9' then c as int - '0' as int
    else if 'a' <= c <= 'f' then c as int - 'a' as int + 10
    else if 'A' <= c <= 'F' then c as int - 'A' as int + 10
    else -1
  }

  // The bytes that a hexadecimal text stands for, up to the first pair that is not hexadecimal.
  function HexBytes(s: string): seq<int> {
    if |s| < 2 || HexValue(s[0]) < 0 || HexValue(s[1]) < 0 then []
    else [16 * HexValue(s[0]) + HexValue(s[1])] + HexBytes(s[2..])
  }

  // ----- the spelling of a digest -----

  // The bytes of a digest.
  ghost predicate IsDigest(bytes: seq<int>) {
    forall i :: 0 <= i < |bytes| ==> 0 <= bytes[i] < 256
  }

  const HEX_DIGITS := "0123456789abcdef"

  // Two digits for each byte, the higher one first.
  function HexPair(b: int): string
    requires 0 <= b < 256
  {
    [HEX_DIGITS[b / 16], HEX_DIGITS[b % 16]]
  }

  function HexOf(bytes: seq<int>): string
    requires IsDigest(bytes)
  {
    if bytes == [] then "" else HexOf(bytes[..|bytes| - 1]) + HexPair(bytes[|bytes| - 1])
  }

  lemma HexValueOf(d: int)
    requires 0 <= d < 16
    ensures HexValue(HEX_DIGITS[d]) == d && !('A' <= HEX_DIGITS[d] <= 'Z')
  {
  }

  lemma OneMoreByte(front: seq<int>, b: int)
    requires IsDigest(front) && 0 <= b < 256
    ensures HexOf(front + [b]) == HexOf(front) + HexPair(b)
  {
    assert (front + [b])[..|front|] == front;
  }

  lemma {:induction false} HexOfConcat(a: seq<int>, b: seq<int>)
    requires IsDigest(a) && IsDigest(b)
    ensures HexOf(a + b) == HexOf(a) + HexOf(b)
  {
    if b == [] {
      assert a + b == a;
    } else {
      var front, last := b[..|b| - 1], b[|b| - 1];
      assert b == front + [last] && IsDigest(front);
      HexOfConcat(a, front);
      OneMoreByte(front, last);
      assert a + b == (a + front) + [last];
      OneMoreByte(a + front, last);
      Reassociated(HexOf(a), HexOf(front), HexPair(last));
    }
  }

  lemma OneByte(b: int, rest: string)
    requires 0 <= b < 256
    ensures HexBytes(HexPair(b) + rest) == [b] + HexBytes(rest)
  {
    HexValueOf(b / 16);
    HexValueOf(b % 16);
    assert (HexPair(b) + rest)[2..] == rest;
  }

  lemma HexOfFirst(bytes: seq<int>)
    requires IsDigest(bytes) && bytes != []
    ensures HexOf(bytes) == HexPair(bytes[0]) + HexOf(bytes[1..])
  {
    var first := [bytes[0]];
    assert IsDigest(first) && IsDigest(bytes[1..]) && bytes == first + bytes[1..];
    OneMoreByte([], bytes[0]);
    assert [] + first == first && HexOf([]) == "" && HexOf(first) == HexPair(bytes[0]);
    HexOfConcat(first, bytes[1..]);
  }

  lemma HexTextSplits(bytes: seq<int>, rest: string) returns (more: string)
    requires IsDigest(bytes) && bytes != []
    ensures more == HexOf(bytes[1..]) + rest && HexOf(bytes) + rest == HexPair(bytes[0]) + more
  {
    more := HexOf(bytes[1..]) + rest;
    HexOfFirst(bytes);
    Reassociated(HexPair(bytes[0]), HexOf(bytes[1..]), rest);
  }

  lemma {:induction false} HexBytesOfPrefix(bytes: seq<int>, rest: string, text: string)
    requires IsDigest(bytes) && text == HexOf(bytes) + rest
    ensures HexBytes(text) == bytes + HexBytes(rest)
  {
    if bytes == [] {
      assert text == rest;
    } else {
      var more := HexTextSplits(bytes, rest);
      OneByte(bytes[0], more);
      HexBytesOfPrefix(bytes[1..], rest, more);
      FirstAndRest(bytes, HexBytes(rest));
    }
  }

  lemma FirstAndRest(bytes: seq<int>, more: seq<int>)
    requires bytes != []
    ensures [bytes[0]] + (bytes[1..] + more) == bytes + more
  {
  }

  predicate IsHexDigit(c: char) {
    '0' <= c <= '9' || 'a' <= c <= 'f' || 'A' <= c <= 'F'
  }

  // Reading the hexadecimal text of a digest returns the digest; reading ends where two digits are missing.
  lemma HexRoundTrip(bytes: seq<int>)
    requires IsDigest(bytes)
    ensures HexBytes(HexOf(bytes)) == bytes
    ensures forall rest: string :: |rest| < 2 || !IsHexDigit(rest[0]) || !IsHexDigit(rest[1]) ==>
              HexBytes(HexOf(bytes) + rest) == bytes
  {
    forall rest: string | |rest| < 2 || !IsHexDigit(rest[0]) || !IsHexDigit(rest[1])
      ensures HexBytes(HexOf(bytes) + rest) == bytes
    {
      HexBytesOfPrefix(bytes, rest, HexOf(bytes) + rest);
    }
    assert HexOf(bytes) + "" == HexOf(bytes);
  }

  // The letters A-Z become a-z, every other character stays.
  lemma {:induction false} LowerCaseAt(s: string, i: nat)
    requires i < |s|
    ensures |LowerCase(s)| == |s|
    ensures 'A' <= s[i] <= 'Z' ==> LowerCase(s)[i] as int - 'a' as int == s[i] as int - 'A' as int
    ensures !('A' <= s[i] <= 'Z') ==> LowerCase(s)[i] == s[i]
  {
    if i > 0 {
      LowerCaseAt(s[1..], i - 1);
    } else if |s| > 1 {
      LowerCaseAt(s[1..], 0);
    }
  }

  lemma {:induction false} HexHasNoCapitals(bytes: seq<int>)
    requires IsDigest(bytes)
    ensures forall i :: 0 <= i < |HexOf(bytes)| ==> !('A' <= HexOf(bytes)[i] <= 'Z')
  {
    if bytes != [] {
      HexHasNoCapitals(bytes[..|bytes| - 1]);
      HexValueOf(bytes[|bytes| - 1] / 16);
      HexValueOf(bytes[|bytes| - 1] % 16);
    }
  }

  // The spelling of a, in any case, is that of b.
  ghost predicate SameButCase(a: string, b: string) {
    && |a| == |b|
    && forall i :: 0 <= i < |a| ==>
         if 'A' <= a[i] <= 'Z' then b[i] as int - 'a' as int == a[i] as int - 'A' as int else b[i] == a[i]
  }

  lemma LowerCaseIs(a: string, b: string)
    ensures LowerCase(a) == b <==> SameButCase(a, b)
  {
    if a == "" {
    } else {
      LowerCaseAt(a, 0);
      forall i | 0 <= i < |a|
        ensures 'A' <= a[i] <= 'Z' ==> LowerCase(a)[i] as int - 'a' as int == a[i] as int - 'A' as int
        ensures !('A' <= a[i] <= 'Z') ==> LowerCase(a)[i] == a[i]
      {
        LowerCaseAt(a, i);
      }
      if SameButCase(a, b) {
        assert forall i :: 0 <= i < |a| ==> LowerCase(a)[i] == b[i];
      }
    }
  }

  // Capital letters are read like small ones.
  lemma {:induction false} HexIgnoresCase(a: string, b: string)
    requires SameButCase(a, b)
    ensures HexBytes(a) == HexBytes(b)
  {
    if |a| >= 2 {
      HexIgnoresCase(a[2..], b[2..]);
    }
  }

  // ----- which texts spell a digest -----

  predicate IsLowerHex(c: char) {
    '0' <= c <= '9' || 'a' <= c <= 'f'
  }

  lemma PairIsSpelled(a: char, b: char)
    requires IsLowerHex(a) && IsLowerHex(b)
    ensures var byte := 16 * HexValue(a) + HexValue(b); 0 <= byte < 256 && HexPair(byte) == [a, b]
  {
    var x, y := HexValue(a), HexValue(b);
    assert (16 * x + y) / 16 == x && (16 * x + y) % 16 == y;
  }

  // An even number of digits, none of them a capital letter.
  lemma {:induction false} LowerHexSpells(s: string) returns (bytes: seq<int>)
    requires |s| % 2 == 0 && forall i :: 0 <= i < |s| ==> IsLowerHex(s[i])
    ensures IsDigest(bytes) && 2 * |bytes| == |s| && HexOf(bytes) == s
  {
    bytes := [];
    if s != "" {
      var front, a, b := s[..|s| - 2], s[|s| - 2], s[|s| - 1];
      bytes := LowerHexSpells(front);
      PairIsSpelled(a, b);
      var byte := 16 * HexValue(a) + HexValue(b);
      OneMoreByte(bytes, byte);
      bytes := bytes + [byte];
      assert s == front + [a, b];
    }
  }

  lemma {:induction false} SpelledIsLowerHex(bytes: seq<int>)
    requires IsDigest(bytes)
    ensures |HexOf(bytes)| == 2 * |bytes| && forall i :: 0 <= i < |HexOf(bytes)| ==> IsLowerHex(HexOf(bytes)[i])
  {
    if bytes != [] {
      SpelledIsLowerHex(bytes[..|bytes| - 1]);
      assert forall d :: 0 <= d < 16 ==> IsLowerHex(HEX_DIGITS[d]);
    }
  }
}
