/**
 The two list edits the admin pages apply to their local copy of a table
 after the server accepted a change: `list.map(x => x.id === id ? f(x) : x)`
 and `list.filter(keep)`.
 */
module ListUpdates {

  /** `s.filter(keep)`. */
  function Filter<T>(s: seq<T>, keep: T -> bool): (r: seq<T>)
    ensures |r| <= |s|
    ensures forall i :: 0 <= i < |r| ==> keep(r[i])
    ensures forall i :: 0 <= i < |r| ==> r[i] in s
    ensures forall i :: 0 <= i < |s| && keep(s[i]) ==> s[i] in r
  {
    if s == [] then []
    else if keep(s[0]) then [s[0]] + Filter(s[1..], keep)
    else Filter(s[1..], keep)
  }

  /** Filtering works piece by piece, so the kept elements stay in their
      original order. */
  lemma {:induction false} FilterConcat<T>(a: seq<T>, b: seq<T>, keep: T -> bool)
    ensures Filter(a + b, keep) == Filter(a, keep) + Filter(b, keep)
  {
    if a == [] {
      assert a + b == b;
    } else {
      assert (a + b)[0] == a[0] && (a + b)[1..] == a[1..] + b;
      FilterConcat(a[1..], b, keep);
    }
  }

  /** A filter that keeps everything changes nothing. */
  lemma {:induction false} FilterAll<T>(s: seq<T>, keep: T -> bool)
    requires forall i :: 0 <= i < |s| ==> keep(s[i])
    ensures Filter(s, keep) == s
  {
    if s != [] {
      FilterAll(s[1..], keep);
      assert s == [s[0]] + s[1..];
    }
  }

  /** Whatever the filter returns passes the test. */
  lemma FilterMember<T>(s: seq<T>, keep: T -> bool, x: T)
    requires x in Filter(s, keep)
    ensures keep(x)
  {
    var r := Filter(s, keep);
    var i :| 0 <= i < |r| && r[i] == x;
  }

  /** A filter that keeps nothing leaves nothing. */
  lemma {:induction false} FilterNone<T>(s: seq<T>, keep: T -> bool)
    requires forall i :: 0 <= i < |s| ==> !keep(s[i])
    ensures Filter(s, keep) == []
  {
    if s != [] {
      FilterNone(s[1..], keep);
    }
  }

  /** `s.map(x => hit(x) ? f(x) : x)`: the elements `hit` selects are
      replaced by their image, the others stay where and what they were. */
  function UpdateWhere<T>(s: seq<T>, hit: T -> bool, f: T -> T): (r: seq<T>)
    ensures |r| == |s|
    ensures forall i :: 0 <= i < |s| && hit(s[i]) ==> r[i] == f(s[i])
    ensures forall i :: 0 <= i < |s| && !hit(s[i]) ==> r[i] == s[i]
  {
    seq(|s|, i requires 0 <= i < |s| => if hit(s[i]) then f(s[i]) else s[i])
  }

  /** Applying an involution twice to the same selection restores the list,
      provided the selection does not depend on the part `f` changes. */
  lemma UpdateTwice<T>(s: seq<T>, hit: T -> bool, f: T -> T)
    requires forall x :: hit(f(x)) == hit(x) && f(f(x)) == x
    ensures UpdateWhere(UpdateWhere(s, hit, f), hit, f) == s
  {
    var once := UpdateWhere(s, hit, f);
    var twice := UpdateWhere(once, hit, f);
    forall i | 0 <= i < |s| ensures twice[i] == s[i] {
      if hit(s[i]) { assert hit(once[i]); }
    }
  }

  /** The first element a filter keeps is the first element of the list
      that passes the test. */
  lemma {:induction false} FilterFirst<T>(s: seq<T>, keep: T -> bool)
    requires Filter(s, keep) != []
    ensures exists k ::
      && 0 <= k < |s| && s[k] == Filter(s, keep)[0] && keep(s[k])
      && forall j :: 0 <= j < k ==> !keep(s[j])
  {
    if !keep(s[0]) {
      FilterFirst(s[1..], keep);
      var k :|
        && 0 <= k < |s[1..]| && s[1..][k] == Filter(s[1..], keep)[0] && keep(s[1..][k])
        && forall j :: 0 <= j < k ==> !keep(s[1..][j]);
      assert s[k + 1] == Filter(s, keep)[0];
      forall j | 0 <= j < k + 1 ensures !keep(s[j]) {
        if j > 0 { assert s[j] == s[1..][j - 1]; }
      }
    } else {
      assert s[0] == Filter(s, keep)[0];
    }
  }
}
