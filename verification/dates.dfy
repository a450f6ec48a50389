/**
 The `YYYY-MM-DD` "today" string the chat and events routes build from the
 civil date (year, zero-padded month, zero-padded day) and compare
 `event_date` against. The time zone conversion that yields the civil date
 is outside the model: the date is an input.
 */
module Dates {
  import opened Text

  datatype CivilDate = CivilDate(year: nat, month: nat, day: nat)

  /** A month in 1..12 and a day in 1..31, with a four-digit year. */
  predicate Plausible(d: CivilDate) {
    1000 <= d.year <= 9999 && 1 <= d.month <= 12 && 1 <= d.day <= 31
  }

  /** Calendar order. */
  predicate Before(a: CivilDate, b: CivilDate) {
    || a.year < b.year
    || (a.year == b.year && a.month < b.month)
    || (a.year == b.year && a.month == b.month && a.day < b.day)
  }

  /** `getFullYear() + '-' + pad(getMonth() + 1) + '-' + pad(getDate())`. */
  function Today(d: CivilDate): (r: string)
    ensures Plausible(d) ==> |r| == 10 && r[4] == '-' && r[7] == '-'
    ensures Plausible(d) ==>
      && AllDigits(r[..4]) && AllDigits(r[5..7]) && AllDigits(r[8..])
      && DecimalValue(r[..4]) == d.year && DecimalValue(r[5..7]) == d.month && DecimalValue(r[8..]) == d.day
  {
    NatToStringLength(d.year);
    NatToStringRoundTrip(d.year);
    var r := NatToString(d.year) + "-" + Pad2(d.month) + "-" + Pad2(d.day);
    assert Plausible(d) ==>
      r[..4] == NatToString(d.year) && r[5..7] == Pad2(d.month) && r[8..] == Pad2(d.day);
    r
  }

  lemma NatToStringLength(n: nat)
    ensures 1000 <= n <= 9999 ==> |NatToString(n)| == 4
  {
    if 1000 <= n <= 9999 {
      assert |NatToString(n / 1000)| == 1;
      assert |NatToString(n / 100)| == 2;
      assert |NatToString(n / 10)| == 3;
    }
  }

  /** Two concatenations with first parts of equal length are equal exactly
      when both parts are. */
  lemma ConcatEq(a1: string, b1: string, a2: string, b2: string)
    requires |a1| == |a2|
    ensures a1 + b1 == a2 + b2 <==> a1 == a2 && b1 == b2
  {
    if a1 + b1 == a2 + b2 {
      assert a1 == (a1 + b1)[..|a1|] && a2 == (a2 + b2)[..|a2|];
      assert b1 == (a1 + b1)[|a1|..] && b2 == (a2 + b2)[|a2|..];
    }
  }

  /** On digit strings of one length, code-point order is numeric order. */
  lemma {:induction false} DigitsOrder(s: string, t: string)
    requires |s| == |t| && AllDigits(s) && AllDigits(t)
    ensures LexLess(s, t) <==> DecimalValue(s) < DecimalValue(t)
    ensures s == t <==> DecimalValue(s) == DecimalValue(t)
  {
    if s != [] {
      var n := |s|;
      var s', t' := s[..n - 1], t[..n - 1];
      var a, b := s[n - 1], t[n - 1];
      assert s == s' + [a] && t == t' + [b];
      DigitsOrder(s', t');
      LexConcat(s', [a], t', [b]);
      ConcatEq(s', [a], t', [b]);
      assert LexLess([a], [b]) <==> a < b by {
        assert [a][1..] == [] && [b][1..] == [];
      }
      var x, y := DecimalValue(s'), DecimalValue(t');
      var da, db := DigitValue(a), DigitValue(b);
      assert DecimalValue(s) == 10 * x + da;
      assert DecimalValue(t) == 10 * y + db;
      assert x < y ==> 10 * x + da < 10 * y + db;
      assert y < x ==> 10 * y + db < 10 * x + da;
    }
  }

  /** The year and month fields of the string line up with the calendar. */
  lemma FieldOrder(a: string, b: string, x: nat, y: nat)
    requires |a| == |b| && AllDigits(a) && AllDigits(b)
    requires DecimalValue(a) == x && DecimalValue(b) == y
    ensures LexLess(a, b) <==> x < y
    ensures a == b <==> x == y
  {
    DigitsOrder(a, b);
  }

  /** For four-digit years the string order of the "today" strings is the
      calendar order, and equal strings mean equal dates: comparing an
      ISO date column against the string compares dates. */
  lemma TodayOrder(a: CivilDate, b: CivilDate)
    requires Plausible(a) && Plausible(b)
    ensures LexLess(Today(a), Today(b)) <==> Before(a, b)
    ensures Today(a) == Today(b) <==> a == b
  {
    NatToStringLength(a.year);
    NatToStringLength(b.year);
    NatToStringRoundTrip(a.year);
    NatToStringRoundTrip(b.year);
    var ya, ma, da := NatToString(a.year), Pad2(a.month), Pad2(a.day);
    var yb, mb, db := NatToString(b.year), Pad2(b.month), Pad2(b.day);
    FieldOrder(ya, yb, a.year, b.year);
    FieldOrder(ma, mb, a.month, b.month);
    FieldOrder(da, db, a.day, b.day);
    FieldsOrder(ya, ma, da, yb, mb, db, a, b);
  }

  /** Three digit fields per date joined by dashes compare as the dates. */
  lemma FieldsOrder(ya: string, ma: string, da: string, yb: string, mb: string, db: string, a: CivilDate, b: CivilDate)
    requires |ya| == |yb| && |ma| == |mb|
    requires (LexLess(ya, yb) <==> a.year < b.year) && (ya == yb <==> a.year == b.year)
    requires (LexLess(ma, mb) <==> a.month < b.month) && (ma == mb <==> a.month == b.month)
    requires (LexLess(da, db) <==> a.day < b.day) && (da == db <==> a.day == b.day)
    ensures LexLess(ya + "-" + ma + "-" + da, yb + "-" + mb + "-" + db) <==> Before(a, b)
    ensures ya + "-" + ma + "-" + da == yb + "-" + mb + "-" + db <==> a == b
  {
    var ra, rb := "-" + da, "-" + db;
    var qa, qb := ma + ra, mb + rb;
    var pa, pb := "-" + qa, "-" + qb;
    assert LexLess(qa, qb) <==> a.month < b.month || (a.month == b.month && a.day < b.day) by {
      LexConcat(ma, ra, mb, rb);
      DashFirst(da, db);
    }
    assert qa == qb <==> a.month == b.month && a.day == b.day by {
      ConcatEq(ma, ra, mb, rb);
      DashFirst(da, db);
    }
    DashFirst(qa, qb);
    Regroup(ya, ma, da);
    Regroup(yb, mb, db);
    LexConcat(ya, pa, yb, pb);
    ConcatEq(ya, pa, yb, pb);
  }

  /** A shared leading dash decides nothing. */
  lemma DashFirst(x: string, y: string)
    ensures LexLess("-" + x, "-" + y) <==> LexLess(x, y)
    ensures "-" + x == "-" + y <==> x == y
  {
    LexConcat("-", x, "-", y);
    ConcatEq("-", x, "-", y);
    LexIrreflexive("-");
  }

  lemma Regroup(y: string, m: string, d: string)
    ensures y + "-" + m + "-" + d == y + ("-" + (m + ("-" + d)))
  {}
}
