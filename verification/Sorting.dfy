// Sorting by a string key under a strict total order, and why the result does not depend on the
// order of the input.
module Sorting {

  ghost predicate StrictTotalOrder(less: (string, string) -> bool) {
    && (forall a :: !less(a, a))
    && (forall a, b, c :: less(a, b) && less(b, c) ==> less(a, c))
    && (forall a, b :: a != b ==> less(a, b) || less(b, a))
  }

  // Lexicographic order of the characters.
  predicate TextLess(a: string, b: string) {
    b != "" && (a == "" || a[0] < b[0] || (a[0] == b[0] && TextLess(a[1..], b[1..])))
  }

  lemma {:induction false} TextLessIsTransitive(a: string, b: string, c: string)
    requires TextLess(a, b) && TextLess(b, c)
    ensures TextLess(a, c)
  {
    if a != "" && a[0] == b[0] == c[0] {
      TextLessIsTransitive(a[1..], b[1..], c[1..]);
    }
  }

  lemma {:induction false} TextLessIsTotal(a: string, b: string)
    ensures !TextLess(a, a)
    ensures a != b ==> TextLess(a, b) || TextLess(b, a)
  {
    if a != "" {
      TextLessIsTotal(a[1..], if b == "" then b else b[1..]);
      if b != "" && a[0] == b[0] {
        assert a == [a[0]] + a[1..] && b == [b[0]] + b[1..];
      }
    }
  }

  lemma TextLessIsOrder()
    ensures StrictTotalOrder(TextLess)
  {
    forall a, b, c | TextLess(a, b) && TextLess(b, c) ensures TextLess(a, c) {
      TextLessIsTransitive(a, b, c);
    }
    forall a, b ensures !TextLess(a, a) && (a != b ==> TextLess(a, b) || TextLess(b, a)) {
      TextLessIsTotal(a, b);
    }
  }

  // At the first difference the smaller character decides, and a text goes before its continuations.
  lemma {:induction false} TextLessDecides(a: string, b: string, k: nat)
    requires k <= |a| && k <= |b| && a[..k] == b[..k]
    ensures k == |a| < |b| ==> TextLess(a, b)
    ensures k < |a| && k < |b| && a[k] < b[k] ==> TextLess(a, b)
    ensures k == |b| || (k < |a| && a[k] > b[k]) ==> !TextLess(a, b)
  {
    if k > 0 {
      assert a[0] == a[..k][0] && b[0] == b[..k][0];
      assert a[1..][..k - 1] == a[..k][1..] && b[1..][..k - 1] == b[..k][1..];
      TextLessDecides(a[1..], b[1..], k - 1);
    }
  }

  function Keys<T>(items: seq<T>, key: T -> string): (keys: seq<string>)
    ensures |keys| == |items| && forall i :: 0 <= i < |items| ==> keys[i] == key(items[i])
  {
    seq(|items|, i requires 0 <= i < |items| => key(items[i]))
  }

  ghost predicate Distinct(keys: seq<string>) {
    forall i, j :: 0 <= i < j < |keys| ==> keys[i] != keys[j]
  }

  ghost predicate Ascending(keys: seq<string>, less: (string, string) -> bool) {
    forall i, j :: 0 <= i < j < |keys| ==> less(keys[i], keys[j])
  }

  // Stable: an item goes behind the ones with an equal key.
  function Insert<T>(x: T, items: seq<T>, key: T -> string, less: (string, string) -> bool): (r: seq<T>)
    ensures multiset(r) == multiset{x} + multiset(items)
  {
    if items == [] then [x]
    else if less(key(x), key(items[0])) then [x] + items
    else
      assert items == [items[0]] + items[1..];
      [items[0]] + Insert(x, items[1..], key, less)
  }

  function SortByKey<T>(items: seq<T>, key: T -> string, less: (string, string) -> bool): (r: seq<T>)
    ensures multiset(r) == multiset(items)
  {
    if items == [] then []
    else
      var last := |items| - 1;
      assert items == items[..last] + [items[last]];
      Insert(items[last], SortByKey(items[..last], key, less), key, less)
  }

  lemma StillMember<T>(a: seq<T>, b: seq<T>, x: T)
    requires multiset(a) == multiset(b) && x in a
    ensures x in b
  {
    assert x in multiset(b);
  }

  lemma SameMembers<T>(a: seq<T>, b: seq<T>)
    requires multiset(a) == multiset(b)
    ensures |a| == |b| && forall x :: x in a <==> x in b
  {
    assert |multiset(a)| == |multiset(b)|;
    forall x ensures x in a <==> x in b {
      assert x in multiset(a) <==> x in multiset(b);
    }
  }

  lemma AscendingPrepend(first: string, rest: seq<string>, less: (string, string) -> bool)
    requires Ascending(rest, less) && forall k :: k in rest ==> less(first, k)
    ensures Ascending([first] + rest, less)
  {
    var all := [first] + rest;
    forall i, j | 0 <= i < j < |all| ensures less(all[i], all[j]) {
      assert all[j] == rest[j - 1] && rest[j - 1] in rest;
    }
  }

  lemma AscendingBefore(first: string, keys: seq<string>, less: (string, string) -> bool)
    requires StrictTotalOrder(less) && Ascending(keys, less) && keys != [] && less(first, keys[0])
    ensures Ascending([first] + keys, less)
  {
    forall k | k in keys ensures less(first, k) {
      var i :| 0 <= i < |keys| && keys[i] == k;
      assert i > 0 ==> less(keys[0], keys[i]);
    }
    AscendingPrepend(first, keys, less);
  }

  lemma DistinctPrepend(first: string, rest: seq<string>)
    requires Distinct(rest) && forall i :: 0 <= i < |rest| ==> rest[i] != first
    ensures Distinct([first] + rest)
  {
  }

  lemma KeyInKeys<T>(items: seq<T>, key: T -> string, k: string)
    ensures k in Keys(items, key) <==> exists x :: x in items && key(x) == k
  {
    if k in Keys(items, key) {
      var i :| 0 <= i < |items| && Keys(items, key)[i] == k;
      assert items[i] in items;
    }
    if exists x :: x in items && key(x) == k {
      var x :| x in items && key(x) == k;
      var i :| 0 <= i < |items| && items[i] == x;
      assert Keys(items, key)[i] == k;
    }
  }

  lemma InsertedKey<T>(x: T, items: seq<T>, key: T -> string, less: (string, string) -> bool, k: string)
    requires k in Keys(Insert(x, items, key, less), key)
    ensures k == key(x) || k in Keys(items, key)
  {
    var r := Insert(x, items, key, less);
    KeyInKeys(r, key, k);
    var y :| y in r && key(y) == k;
    assert y in multiset(r);
    if y != x {
      KeyInKeys(items, key, k);
    }
  }

  lemma {:induction false} InsertKeepsAscending<T>(
      x: T, items: seq<T>, key: T -> string, less: (string, string) -> bool)
    requires StrictTotalOrder(less) && Ascending(Keys(items, key), less) && key(x) !in Keys(items, key)
    ensures Ascending(Keys(Insert(x, items, key, less), key), less)
  {
    if items != [] {
      var keys, tail := Keys(items, key), items[1..];
      assert keys[0] == key(items[0]) && keys[0] in keys && Keys(tail, key) == keys[1..];
      if less(key(x), key(items[0])) {
        assert Keys([x] + items, key) == [key(x)] + keys;
        AscendingBefore(key(x), keys, less);
      } else {
        var rest := Insert(x, tail, key, less);
        InsertKeepsAscending(x, tail, key, less);
        assert Keys([items[0]] + rest, key) == [keys[0]] + Keys(rest, key);
        forall k | k in Keys(rest, key) ensures less(keys[0], k) {
          InsertedKey(x, tail, key, less, k);
          Following(keys, less, k);
        }
        AscendingPrepend(keys[0], Keys(rest, key), less);
      }
    }
  }

  lemma Following(keys: seq<string>, less: (string, string) -> bool, k: string)
    requires keys != [] && Ascending(keys, less)
    ensures k in keys[1..] ==> less(keys[0], k)
  {
  }

  lemma KeyAbsent<T>(items: seq<T>, others: seq<T>, last: nat, key: T -> string)
    requires last == |items| - 1 && Distinct(Keys(items, key)) && multiset(others) == multiset(items[..last])
    ensures key(items[last]) !in Keys(others, key)
  {
    SameMembers(others, items[..last]);
    forall j | 0 <= j < |others| ensures key(others[j]) != key(items[last]) {
      assert others[j] in items[..last];
      var k :| 0 <= k < last && items[k] == others[j];
      assert Keys(items, key)[k] != Keys(items, key)[last];
    }
  }

  lemma {:induction false} SortedIsAscending<T>(items: seq<T>, key: T -> string, less: (string, string) -> bool)
    requires StrictTotalOrder(less) && Distinct(Keys(items, key))
    ensures Ascending(Keys(SortByKey(items, key, less), key), less)
  {
    if items != [] {
      var last := |items| - 1;
      var front := SortByKey(items[..last], key, less);
      assert Keys(items[..last], key) == Keys(items, key)[..last];
      SortedIsAscending(items[..last], key, less);
      KeyAbsent(items, front, last, key);
      InsertKeepsAscending(items[last], front, key, less);
    }
  }

  lemma {:induction false} InsertKeepsDistinct<T>(x: T, items: seq<T>, key: T -> string, less: (string, string) -> bool)
    requires Distinct(Keys(items, key)) && key(x) !in Keys(items, key)
    ensures Distinct(Keys(Insert(x, items, key, less), key))
  {
    if items != [] {
      var keys, tail := Keys(items, key), items[1..];
      assert keys[0] == key(items[0]) && keys[0] in keys && Keys(tail, key) == keys[1..];
      if less(key(x), key(items[0])) {
        assert Keys([x] + items, key) == [key(x)] + keys;
      } else {
        var rest := Insert(x, tail, key, less);
        InsertKeepsDistinct(x, tail, key, less);
        assert Keys([items[0]] + rest, key) == [keys[0]] + Keys(rest, key);
        assert keys[0] !in keys[1..];
        forall i | 0 <= i < |rest| ensures Keys(rest, key)[i] != keys[0] {
          InsertedKey(x, tail, key, less, key(rest[i]));
        }
        DistinctPrepend(keys[0], Keys(rest, key));
      }
    }
  }

  // Whatever the order says, sorting keeps distinct keys distinct.
  lemma {:induction false} SortKeepsDistinct<T>(items: seq<T>, key: T -> string, less: (string, string) -> bool)
    requires Distinct(Keys(items, key))
    ensures Distinct(Keys(SortByKey(items, key, less), key))
  {
    if items != [] {
      var last := |items| - 1;
      var front := SortByKey(items[..last], key, less);
      assert Keys(items[..last], key) == Keys(items, key)[..last];
      SortKeepsDistinct(items[..last], key, less);
      KeyAbsent(items, front, last, key);
      InsertKeepsDistinct(items[last], front, key, less);
    }
  }

  lemma LeastIsFirst(a: seq<string>, less: (string, string) -> bool, x: string)
    requires Ascending(a, less) && x in a
    ensures a[0] == x || less(a[0], x)
  {
  }

  // An ascending sequence is determined by its members.
  lemma {:induction false} AscendingIsUnique(a: seq<string>, b: seq<string>, less: (string, string) -> bool)
    requires StrictTotalOrder(less) && Ascending(a, less) && Ascending(b, less)
    requires forall x :: x in a <==> x in b
    ensures a == b
    decreases |a|
  {
    if b != [] {
      assert b[0] in b && b[0] in a;
    }
    if a != [] {
      assert a[0] in a && a[0] in b;
      LeastIsFirst(a, less, b[0]);
      LeastIsFirst(b, less, a[0]);
      forall x ensures x in a[1..] <==> x in b[1..] {
        MemberOfTail(a, less, x);
        MemberOfTail(b, less, x);
      }
      AscendingIsUnique(a[1..], b[1..], less);
      assert a == [a[0]] + a[1..] && b == [b[0]] + b[1..];
    }
  }

  lemma MemberOfTail(a: seq<string>, less: (string, string) -> bool, x: string)
    requires StrictTotalOrder(less) && Ascending(a, less) && a != []
    ensures x in a[1..] <==> x in a && x != a[0]
  {
    if x in a[1..] {
      var i :| 0 <= i < |a| - 1 && a[1..][i] == x;
      assert less(a[0], a[i + 1]);
    }
    if x in a && x != a[0] {
      var i :| 0 <= i < |a| && a[i] == x;
      assert a[1..][i - 1] == x;
    }
  }

  lemma InsertName(x: string, names: seq<string>)
    requires Ascending(names, TextLess) && x !in names
    ensures Ascending(Insert(x, names, k => k, TextLess), TextLess)
    ensures forall y :: y in Insert(x, names, k => k, TextLess) <==> y == x || y in names
  {
    var same := (k: string) => k;
    var r := Insert(x, names, same, TextLess);
    assert Keys(names, same) == names && Keys(r, same) == r;
    TextLessIsOrder();
    InsertKeepsAscending(x, names, same, TextLess);
    forall y ensures y in r <==> y == x || y in names {
      assert y in r <==> y in multiset(r);
    }
  }

  lemma WithName(x: string, names: seq<string>) returns (r: seq<string>)
    requires Ascending(names, TextLess) && x !in names
    ensures Ascending(r, TextLess) && |r| == |names| + 1 && forall y :: y in r <==> y == x || y in names
  {
    InsertName(x, names);
    r := Insert(x, names, k => k, TextLess);
    assert |multiset(r)| == 1 + |names|;
  }

  // The members of a set, ascending.
  ghost predicate Orders(names: set<string>, r: seq<string>) {
    Ascending(r, TextLess) && |r| == |names| && forall x :: x in r <==> x in names
  }

  lemma {:induction false} CanBeOrdered(names: set<string>) returns (r: seq<string>)
    ensures Orders(names, r)
  {
    r := [];
    if names != {} {
      var x :| x in names;
      var rest := CanBeOrdered(names - {x});
      r := WithName(x, rest);
    }
  }

  lemma OrderExists(names: set<string>)
    ensures exists r :: Orders(names, r)
  {
    var r := CanBeOrdered(names);
  }

  ghost function InOrder(names: set<string>): (r: seq<string>)
    ensures Orders(names, r)
  {
    OrderExists(names);
    var r :| Orders(names, r);
    r
  }
}
