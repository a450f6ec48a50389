/**
 The row orderings the routes ask the database for (`.order(column)` one or
 more times, ascending): a row's sort key is the list of its ordering
 columns, compared column by column. Text columns compare by code point,
 number columns numerically. `SortBy` is the reference sort the query
 results are specified with.
 */
module Ordering {
  import opened Text

  /** One ordering column's value. */
  datatype Key = Str(s: string) | Int(n: int)

  predicate KeyLess(a: Key, b: Key) {
    match (a, b)
    case (Str(x), Str(y)) => LexLess(x, y)
    case (Int(x), Int(y)) => x < y
    case (Int(_), Str(_)) => true
    case (Str(_), Int(_)) => false
  }

  /** Lexicographic order on lists of column values. */
  predicate KeysLess(a: seq<Key>, b: seq<Key>) {
    if a == [] then b != []
    else if b == [] then false
    else KeyLess(a[0], b[0]) || (a[0] == b[0] && KeysLess(a[1..], b[1..]))
  }

  predicate KeysLe(a: seq<Key>, b: seq<Key>) {
    !KeysLess(b, a)
  }

  lemma KeyTrichotomy(a: Key, b: Key)
    ensures KeyLess(a, b) || a == b || KeyLess(b, a)
  {
    if a.Str? && b.Str? { LexTrichotomy(a.s, b.s); }
  }

  lemma KeyAntisymmetric(a: Key, b: Key)
    requires KeyLess(a, b)
    ensures !KeyLess(b, a) && a != b
  {
    if a.Str? && b.Str? {
      LexAntisymmetric(a.s, b.s);
      LexIrreflexive(a.s);
    }
  }

  lemma KeyTransitive(a: Key, b: Key, c: Key)
    requires KeyLess(a, b) && KeyLess(b, c)
    ensures KeyLess(a, c)
  {
    if a.Str? && b.Str? && c.Str? { LexTransitive(a.s, b.s, c.s); }
  }

  lemma {:induction false} KeysTrichotomy(a: seq<Key>, b: seq<Key>)
    ensures KeysLess(a, b) || a == b || KeysLess(b, a)
  {
    if a != [] && b != [] {
      KeyTrichotomy(a[0], b[0]);
      if a[0] == b[0] {
        KeysTrichotomy(a[1..], b[1..]);
        if a[1..] == b[1..] { assert a == [a[0]] + a[1..] && b == [b[0]] + b[1..]; }
      }
    }
  }

  lemma {:induction false} KeysAntisymmetric(a: seq<Key>, b: seq<Key>)
    requires KeysLess(a, b)
    ensures !KeysLess(b, a) && a != b
  {
    if a != [] && b != [] {
      if KeyLess(a[0], b[0]) {
        KeyAntisymmetric(a[0], b[0]);
      } else {
        KeysAntisymmetric(a[1..], b[1..]);
      }
    }
  }

  lemma {:induction false} KeysTransitive(a: seq<Key>, b: seq<Key>, c: seq<Key>)
    requires KeysLess(a, b) && KeysLess(b, c)
    ensures KeysLess(a, c)
  {
    if a != [] && b != [] && c != [] {
      if KeyLess(a[0], b[0]) && KeyLess(b[0], c[0]) {
        KeyTransitive(a[0], b[0], c[0]);
      } else if a[0] == b[0] && b[0] == c[0] {
        KeysTransitive(a[1..], b[1..], c[1..]);
      }
    }
  }

  lemma KeysLeTotal(a: seq<Key>, b: seq<Key>)
    ensures KeysLe(a, b) || KeysLe(b, a)
  {
    if KeysLess(a, b) { KeysAntisymmetric(a, b); }
  }

  lemma KeysLeTransitive(a: seq<Key>, b: seq<Key>, c: seq<Key>)
    requires KeysLe(a, b) && KeysLe(b, c)
    ensures KeysLe(a, c)
  {
    if KeysLess(c, a) {
      KeysTrichotomy(a, b);
      KeysTrichotomy(b, c);
      if KeysLess(a, b) { KeysTransitive(c, a, b); }
    }
  }

  /** `s` is in ascending order of `key`. */
  ghost predicate SortedBy<T>(s: seq<T>, key: T -> seq<Key>) {
    forall i, j :: 0 <= i < j < |s| ==> KeysLe(key(s[i]), key(s[j]))
  }

  function Insert<T>(x: T, s: seq<T>, key: T -> seq<Key>): (r: seq<T>)
    requires SortedBy(s, key)
    ensures SortedBy(r, key)
    ensures multiset(r) == multiset(s) + multiset{x}
  {
    if s == [] then [x]
    else if KeysLe(key(x), key(s[0])) then
      assert forall j :: 0 <= j < |s| ==> KeysLe(key(x), key(s[j])) by {
        forall j | 0 <= j < |s| ensures KeysLe(key(x), key(s[j])) {
          if j > 0 { KeysLeTransitive(key(x), key(s[0]), key(s[j])); }
        }
      }
      [x] + s
    else
      KeysLeTotal(key(x), key(s[0]));
      var t := Insert(x, s[1..], key);
      assert s == [s[0]] + s[1..];
      var r := [s[0]] + t;
      assert forall j :: 0 <= j < |t| ==> KeysLe(key(s[0]), key(t[j])) by {
        forall j | 0 <= j < |t| ensures KeysLe(key(s[0]), key(t[j])) {
          assert t[j] in multiset(t);
          if t[j] != x {
            assert t[j] in multiset(s[1..]);
            var k :| 0 <= k < |s[1..]| && s[1..][k] == t[j];
            assert s[k + 1] == t[j];
          }
        }
      }
      r
  }

  /** Insertion sort: the ascending arrangement of the same rows. */
  function SortBy<T>(s: seq<T>, key: T -> seq<Key>): (r: seq<T>)
    ensures SortedBy(r, key)
    ensures multiset(r) == multiset(s)
    ensures |r| == |s|
  {
    if s == [] then []
    else
      assert s == [s[0]] + s[1..];
      Insert(s[0], SortBy(s[1..], key), key)
  }

  /** Sorting only rearranges: every element of the result is an input
      element. */
  lemma SortByMembers<T>(s: seq<T>, key: T -> seq<Key>)
    ensures forall i :: 0 <= i < |SortBy(s, key)| ==> SortBy(s, key)[i] in s
  {
    var r := SortBy(s, key);
    forall i | 0 <= i < |r| ensures r[i] in s {
      assert r[i] in multiset(r);
    }
  }

  /** `.limit(n)`: the first `n` rows. */
  function Take<T>(s: seq<T>, n: nat): (r: seq<T>)
    ensures |r| == if |s| < n then |s| else n
    ensures r == s[..|r|]
  {
    if |s| <= n then s else s[..n]
  }

  /** A sorted list's first rows are sorted, are drawn from it, and come no
      later than any row left out. */
  lemma TakeSortedIsSmallest<T>(s: seq<T>, n: nat, key: T -> seq<Key>)
    requires SortedBy(s, key)
    ensures SortedBy(Take(s, n), key)
    ensures multiset(Take(s, n)) <= multiset(s)
    ensures forall i :: 0 <= i < |Take(s, n)| ==> Take(s, n)[i] in s
    ensures forall i, j :: 0 <= i < |Take(s, n)| <= j < |s| ==> KeysLe(key(s[i]), key(s[j]))
  {
    var r := Take(s, n);
    assert s == r + s[|r|..];
    assert multiset(s) == multiset(r) + multiset(s[|r|..]);
  }

  /** Every row a sorted list's first rows leave out comes no earlier than
      any row kept. */
  lemma TakeSortedBeatsRest<T>(s: seq<T>, n: nat, key: T -> seq<Key>)
    requires SortedBy(s, key)
    ensures forall i, h :: 0 <= i < |Take(s, n)| && h in multiset(s) - multiset(Take(s, n)) ==>
      KeysLe(key(Take(s, n)[i]), key(h))
  {
    var r := Take(s, n);
    var rest := s[|r|..];
    assert s == r + rest;
    assert multiset(s) - multiset(r) == multiset(rest);
    forall i, h | 0 <= i < |r| && h in multiset(s) - multiset(r) ensures KeysLe(key(r[i]), key(h)) {
      assert h in rest;
      var j :| 0 <= j < |rest| && rest[j] == h;
      assert s[|r| + j] == h;
    }
  }
}
