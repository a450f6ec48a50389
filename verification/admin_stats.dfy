/**
 The dashboard statistics route (`app/api/admin/stats/route.ts`): over the
 reservations dated inside a window it counts rows per status, sums guests,
 tallies rows per day and per table type, and it lists the ten earliest
 pending reservations of the whole table. The clock that yields the default
 window and the database are inputs.
 */
module AdminStats {
  import opened Wrappers
  import opened Text
  import opened Rows
  import opened Http
  import opened Ordering
  import ListUpdates

  const StatsError := "Error al obtener estadísticas"
  const PendingLimit := 10

  // ----- Counting -----

  /** How many rows carry status text `s`. */
  function CountStatus(rows: seq<Reservation>, s: string): (n: nat)
    ensures n <= |rows|
  {
    if rows == [] then 0
    else (if rows[0].status == s then 1 else 0) + CountStatus(rows[1..], s)
  }

  /** `rows.filter(r => r.status === s).length`. */
  lemma {:induction false} CountStatusIsFilterLength(rows: seq<Reservation>, s: string)
    ensures CountStatus(rows, s) == |ListUpdates.Filter(rows, (r: Reservation) => r.status == s)|
  {
    if rows != [] {
      CountStatusIsFilterLength(rows[1..], s);
    }
  }

  predicate KnownStatus(r: Reservation) {
    ParseStatus(r.status).Some?
  }

  /** The four counts never exceed the total, and add up to it when every
      row holds one of the four statuses. */
  lemma {:induction false} StatusCountsBounded(rows: seq<Reservation>)
    ensures CountStatus(rows, "pending") + CountStatus(rows, "confirmed")
          + CountStatus(rows, "cancelled") + CountStatus(rows, "completed") <= |rows|
    ensures (forall i :: 0 <= i < |rows| ==> KnownStatus(rows[i])) ==>
      CountStatus(rows, "pending") + CountStatus(rows, "confirmed")
        + CountStatus(rows, "cancelled") + CountStatus(rows, "completed") == |rows|
  {
    if rows != [] {
      StatusCountsBounded(rows[1..]);
      if forall i :: 0 <= i < |rows| ==> KnownStatus(rows[i]) {
        assert KnownStatus(rows[0]);
        assert forall i :: 0 <= i < |rows[1..]| ==> KnownStatus(rows[1..][i]) by {
          forall i | 0 <= i < |rows[1..]| ensures KnownStatus(rows[1..][i]) {
            assert rows[1..][i] == rows[i + 1];
          }
        }
      }
    }
  }

  /** `r.guests || 0`. */
  function GuestsOrZero(r: Reservation): int {
    if r.guests.Some? then r.guests.value else 0
  }

  /** `rows.reduce((sum, r) => sum + (r.guests || 0), 0)`, folding from the
      left. */
  function TotalGuests(rows: seq<Reservation>): int
    decreases |rows|
  {
    if rows == [] then 0 else TotalGuests(rows[..|rows| - 1]) + GuestsOrZero(rows[|rows| - 1])
  }

  /** The total splits over any cut of the list, so row order does not
      matter and rows without a guest count add nothing. */
  lemma {:induction false} TotalGuestsSplits(a: seq<Reservation>, b: seq<Reservation>)
    ensures TotalGuests(a + b) == TotalGuests(a) + TotalGuests(b)
    decreases |b|
  {
    if b != [] {
      var n := |b| - 1;
      assert (a + b)[..|a + b| - 1] == a + b[..n];
      TotalGuestsSplits(a, b[..n]);
    } else {
      assert a + b == a;
    }
  }

  // ----- Tallies -----

  /** One entry of `Object.entries` over a counting object. */
  datatype Tally = Tally(key: string, count: nat)

  /** The entry for `k`, if there is one. */
  function TallyIndex(ts: seq<Tally>, k: string): (r: Option<nat>)
    ensures r.Some? ==> r.value < |ts| && ts[r.value].key == k
    ensures r.None? ==> forall i :: 0 <= i < |ts| ==> ts[i].key != k
  {
    if ts == [] then None
    else if ts[0].key == k then Some(0)
    else
      match TallyIndex(ts[1..], k)
      case None => None
      case Some(i) => Some(i + 1)
  }

  /** `obj[k] = (obj[k] || 0) + 1`: a new key is added last. */
  function Bump(ts: seq<Tally>, k: string): seq<Tally> {
    match TallyIndex(ts, k)
    case None => ts + [Tally(k, 1)]
    case Some(i) => ts[i := Tally(k, ts[i].count + 1)]
  }

  /** The counting loop over `keys`. */
  function TallyOf(keys: seq<string>): seq<Tally>
    decreases |keys|
  {
    if keys == [] then [] else Bump(TallyOf(keys[..|keys| - 1]), keys[|keys| - 1])
  }

  /** How often `k` occurs in `keys`. */
  function Occurrences(keys: seq<string>, k: string): nat
    decreases |keys|
  {
    if keys == [] then 0
    else Occurrences(keys[..|keys| - 1], k) + if keys[|keys| - 1] == k then 1 else 0
  }

  function SumCounts(ts: seq<Tally>): nat {
    if ts == [] then 0 else ts[0].count + SumCounts(ts[1..])
  }

  lemma {:induction false} SumCountsAppend(ts: seq<Tally>, t: Tally)
    ensures SumCounts(ts + [t]) == SumCounts(ts) + t.count
  {
    if ts != [] {
      assert (ts + [t])[1..] == ts[1..] + [t];
      SumCountsAppend(ts[1..], t);
    }
  }

  lemma {:induction false} SumCountsUpdate(ts: seq<Tally>, i: nat, t: Tally)
    requires i < |ts|
    ensures SumCounts(ts[i := t]) == SumCounts(ts) - ts[i].count + t.count
  {
    if i > 0 {
      assert ts[i := t][1..] == ts[1..][i - 1 := t];
      SumCountsUpdate(ts[1..], i - 1, t);
    }
  }

  /** Each key once, with the number of rows that carry it. */
  ghost predicate TalliesKeys(ts: seq<Tally>, keys: seq<string>) {
    && (forall i, j :: 0 <= i < j < |ts| ==> ts[i].key != ts[j].key)
    && (forall i :: 0 <= i < |ts| ==> ts[i].count == Occurrences(keys, ts[i].key) && ts[i].count >= 1)
    && (forall i :: 0 <= i < |keys| ==> exists j :: 0 <= j < |ts| && ts[j].key == keys[i])
    && SumCounts(ts) == |keys|
  }

  /** A key seen before gets its count raised. */
  lemma BumpExisting(ts: seq<Tally>, keys: seq<string>, k: string, x: nat)
    requires TalliesKeys(ts, keys) && TallyIndex(ts, k) == Some(x)
    ensures TalliesKeys(Bump(ts, k), keys + [k])
  {
    var r := Bump(ts, k);
    assert r == ts[x := Tally(k, ts[x].count + 1)];
    SumCountsUpdate(ts, x, Tally(k, ts[x].count + 1));
    assert forall i :: 0 <= i < |r| ==> r[i].key == ts[i].key;
    BumpExistingCounts(ts, keys, k, x);
    BumpExistingCovers(ts, keys, k, x);
  }

  lemma BumpExistingCounts(ts: seq<Tally>, keys: seq<string>, k: string, x: nat)
    requires TalliesKeys(ts, keys) && TallyIndex(ts, k) == Some(x)
    ensures forall i :: 0 <= i < |ts| ==>
      Bump(ts, k)[i].count == Occurrences(keys + [k], Bump(ts, k)[i].key) && Bump(ts, k)[i].count >= 1
  {
    var ks := keys + [k];
    assert ks[..|ks| - 1] == keys;
    var r := Bump(ts, k);
    forall i | 0 <= i < |ts| ensures r[i].count == Occurrences(ks, r[i].key) && r[i].count >= 1 {
      if i != x {
        assert r[i] == ts[i] && ts[i].key != k;
      }
    }
  }

  lemma BumpExistingCovers(ts: seq<Tally>, keys: seq<string>, k: string, x: nat)
    requires TalliesKeys(ts, keys) && TallyIndex(ts, k) == Some(x)
    ensures forall i :: 0 <= i < |keys| + 1 ==> exists j :: 0 <= j < |ts| && Bump(ts, k)[j].key == (keys + [k])[i]
  {
    var ks := keys + [k];
    var r := Bump(ts, k);
    assert r == ts[x := Tally(k, ts[x].count + 1)];
    forall i | 0 <= i < |ks| ensures exists j :: 0 <= j < |ts| && r[j].key == ks[i] {
      if i < |keys| {
        var j :| 0 <= j < |ts| && ts[j].key == keys[i];
        assert r[j].key == ks[i];
      } else {
        assert r[x].key == ks[i];
      }
    }
  }

  /** A new key is added last with count one. */
  lemma BumpNew(ts: seq<Tally>, keys: seq<string>, k: string)
    requires TalliesKeys(ts, keys) && TallyIndex(ts, k).None?
    ensures TalliesKeys(Bump(ts, k), keys + [k])
  {
    var ks := keys + [k];
    assert ks[..|ks| - 1] == keys;
    SumCountsAppend(ts, Tally(k, 1));
    var r := Bump(ts, k);
    assert r == ts + [Tally(k, 1)];
    forall i | 0 <= i < |ks| ensures exists j :: 0 <= j < |r| && r[j].key == ks[i] {
      if i < |keys| {
        var j :| 0 <= j < |ts| && ts[j].key == keys[i];
        assert r[j].key == ks[i];
      } else {
        assert r[|ts|].key == ks[i];
      }
    }
    assert Occurrences(keys, k) == 0 by {
      if Occurrences(keys, k) > 0 { OccurrenceWitness(keys, k); }
    }
    assert forall i :: 0 <= i < |ts| ==> r[i] == ts[i] && ts[i].key != k;
    assert forall i :: 0 <= i < |ts| ==> Occurrences(ks, ts[i].key) == Occurrences(keys, ts[i].key);
    assert Occurrences(ks, k) == 1;
  }

  lemma BumpTallies(ts: seq<Tally>, keys: seq<string>, k: string)
    requires TalliesKeys(ts, keys)
    ensures TalliesKeys(Bump(ts, k), keys + [k])
  {
    match TallyIndex(ts, k)
    case None => BumpNew(ts, keys, k);
    case Some(x) => BumpExisting(ts, keys, k, x);
  }

  /** A key that occurs has a position. */
  lemma {:induction false} OccurrenceWitness(keys: seq<string>, k: string)
    requires Occurrences(keys, k) > 0
    ensures exists i :: 0 <= i < |keys| && keys[i] == k
    decreases |keys|
  {
    var n := |keys| - 1;
    if keys[n] != k {
      OccurrenceWitness(keys[..n], k);
      var i :| 0 <= i < n && keys[..n][i] == k;
      assert keys[i] == k;
    }
  }

  /** The counting loop yields each key once, with its number of
      occurrences, and the counts add up to the number of rows. */
  lemma {:induction false} TallyOfCounts(keys: seq<string>)
    ensures TalliesKeys(TallyOf(keys), keys)
    decreases |keys|
  {
    if keys != [] {
      var n := |keys| - 1;
      TallyOfCounts(keys[..n]);
      BumpTallies(TallyOf(keys[..n]), keys[..n], keys[n]);
      assert keys[..n] + [keys[n]] == keys;
    }
  }

  /** Sorting entries keeps their sum. */
  lemma {:induction false} SumCountsInsert(t: Tally, ts: seq<Tally>, key: Tally -> seq<Key>)
    requires SortedBy(ts, key)
    ensures SumCounts(Insert(t, ts, key)) == t.count + SumCounts(ts)
  {
    if ts != [] && !KeysLe(key(t), key(ts[0])) {
      SumCountsInsert(t, ts[1..], key);
    }
  }

  lemma {:induction false} SumCountsSortBy(ts: seq<Tally>, key: Tally -> seq<Key>)
    ensures SumCounts(SortBy(ts, key)) == SumCounts(ts)
  {
    if ts != [] {
      SumCountsSortBy(ts[1..], key);
      SumCountsInsert(ts[0], SortBy(ts[1..], key), key);
    }
  }

  // ----- The route -----

  function TallyKey(t: Tally): seq<Key> {
    [Str(t.key)]
  }

  /** `r.table_type || 'general'`. */
  function TableTypeOrGeneral(r: Reservation): string {
    OrText(r.tableType, TableTypeName(General))
  }

  function Dates(rows: seq<Reservation>): (r: seq<string>)
    ensures |r| == |rows| && forall i :: 0 <= i < |rows| ==> r[i] == rows[i].date
  {
    seq(|rows|, i requires 0 <= i < |rows| => rows[i].date)
  }

  function TableTypes(rows: seq<Reservation>): (r: seq<string>)
    ensures |r| == |rows| && forall i :: 0 <= i < |rows| ==> r[i] == TableTypeOrGeneral(rows[i])
  {
    seq(|rows|, i requires 0 <= i < |rows| => TableTypeOrGeneral(rows[i]))
  }

  /** The window: the given bounds, or the clock's defaults where a bound
      is missing or empty. */
  function Window(startParam: Option<string>, endParam: Option<string>, defaultStart: string, defaultEnd: string): (w: (string, string))
    ensures w.0 == (if Given(startParam) then startParam.value else defaultStart)
    ensures w.1 == (if Given(endParam) then endParam.value else defaultEnd)
  {
    (OrText(startParam, defaultStart), OrText(endParam, defaultEnd))
  }

  predicate InWindow(start: string, end: string, r: Reservation) {
    LexLe(start, r.date) && LexLe(r.date, end)
  }

  datatype Stats = Stats(
    totalReservations: nat,
    confirmedCount: nat,
    pendingCount: nat,
    cancelledCount: nat,
    completedCount: nat,
    totalGuests: int,
    reservationsByDay: seq<Tally>,
    reservationsByTableType: seq<Tally>,
    pendingReservations: seq<Reservation>)

  predicate IsPending(r: Reservation) {
    r.status == StatusName(Pending)
  }

  /** The pending-list query: pending rows of the whole table, by date then
      time, at most ten. */
  function PendingList(table: seq<Reservation>): (r: seq<Reservation>)
    ensures var pending := ListUpdates.Filter(table, IsPending);
      |r| == if |pending| < PendingLimit then |pending| else PendingLimit
    ensures multiset(r) <= multiset(ListUpdates.Filter(table, IsPending))
    ensures forall i :: 0 <= i < |r| ==> IsPending(r[i]) && r[i] in table
    ensures SortedBy(r, DateTimeKey)
  {
    var hits := ListUpdates.Filter(table, IsPending);
    var sorted := SortBy(hits, DateTimeKey);
    TakeSortedIsSmallest(sorted, PendingLimit, DateTimeKey);
    SortByMembers(hits, DateTimeKey);
    var r := Take(sorted, PendingLimit);
    forall i | 0 <= i < |r| ensures IsPending(r[i]) && r[i] in table {
      ListUpdates.FilterMember(table, IsPending, r[i]);
    }
    r
  }

  /** The list shows the earliest pending reservations: a pending one left
      out comes only when the list is full, and no shown one is dated after
      it. */
  lemma PendingAreTheEarliest(table: seq<Reservation>, e: Reservation)
    requires e in table && IsPending(e) && e !in PendingList(table)
    ensures |PendingList(table)| == PendingLimit
    ensures forall i :: 0 <= i < |PendingList(table)| ==>
      KeysLe(DateTimeKey(PendingList(table)[i]), DateTimeKey(e))
  {
    var hits := ListUpdates.Filter(table, IsPending);
    var sorted := SortBy(hits, DateTimeKey);
    var r := Take(sorted, PendingLimit);
    assert r == PendingList(table);
    var k :| 0 <= k < |table| && table[k] == e;
    assert e in hits;
    assert e in multiset(sorted);
    var p :| 0 <= p < |sorted| && sorted[p] == e;
    assert p >= |r|;
    TakeSortedIsSmallest(sorted, PendingLimit, DateTimeKey);
    forall i | 0 <= i < |r| ensures KeysLe(DateTimeKey(r[i]), DateTimeKey(e)) {
      assert r[i] == sorted[i];
    }
  }

  /** `GET /api/admin/stats`: `table` is the reservations table, `None` when
      the window query failed; `pendingOk` is whether the pending-list query
      succeeded. */
  function Get(startParam: Option<string>, endParam: Option<string>, defaultStart: string, defaultEnd: string,
               table: Option<seq<Reservation>>, pendingOk: bool): (r: Reply<Stats>)
    ensures table.None? <==> r.Fail?
    ensures r.Fail? ==> r == Fail(500, StatsError)
    ensures r.Ok? ==>
      var w := Window(startParam, endParam, defaultStart, defaultEnd);
      var rows := ListUpdates.Filter(table.value, (x: Reservation) => InWindow(w.0, w.1, x));
      && r.body.totalReservations == |rows|
      && r.body.confirmedCount == CountStatus(rows, "confirmed")
      && r.body.pendingCount == CountStatus(rows, "pending")
      && r.body.cancelledCount == CountStatus(rows, "cancelled")
      && r.body.completedCount == CountStatus(rows, "completed")
      && r.body.totalGuests == TotalGuests(rows)
      && TalliesKeys(r.body.reservationsByDay, Dates(rows))
      && SortedBy(r.body.reservationsByDay, TallyKey)
      && TalliesKeys(r.body.reservationsByTableType, TableTypes(rows))
      && (pendingOk ==> r.body.pendingReservations == PendingList(table.value))
      && (!pendingOk ==> r.body.pendingReservations == [])
  {
    match table
    case None => Fail(500, StatsError)
    case Some(all) =>
      var w := Window(startParam, endParam, defaultStart, defaultEnd);
      var rows := ListUpdates.Filter(all, (x: Reservation) => InWindow(w.0, w.1, x));
      var days := TallyOf(Dates(rows));
      TallyOfCounts(Dates(rows));
      TallyOfCounts(TableTypes(rows));
      SortedTallies(days, Dates(rows));
      Ok(Stats(
        |rows|,
        CountStatus(rows, "confirmed"),
        CountStatus(rows, "pending"),
        CountStatus(rows, "cancelled"),
        CountStatus(rows, "completed"),
        TotalGuests(rows),
        SortBy(days, TallyKey),
        TallyOf(TableTypes(rows)),
        if pendingOk then PendingList(all) else []))
  }

  predicate DistinctKeys(ts: seq<Tally>) {
    forall i, j :: 0 <= i < j < |ts| ==> ts[i].key != ts[j].key
  }

  lemma {:induction false} InsertDistinct(t: Tally, ts: seq<Tally>, key: Tally -> seq<Key>)
    requires SortedBy(ts, key) && DistinctKeys(ts)
    requires forall i :: 0 <= i < |ts| ==> ts[i].key != t.key
    ensures DistinctKeys(Insert(t, ts, key))
  {
    if ts != [] && !KeysLe(key(t), key(ts[0])) {
      var rest := ts[1..];
      InsertDistinct(t, rest, key);
      var r := Insert(t, rest, key);
      forall i | 0 <= i < |r| ensures r[i].key != ts[0].key {
        assert r[i] in multiset(r);
        if r[i] != t {
          assert r[i] in multiset(rest);
          var k :| 0 <= k < |rest| && rest[k] == r[i];
          assert ts[k + 1] == r[i];
        }
      }
    }
  }

  lemma {:induction false} SortByDistinct(ts: seq<Tally>, key: Tally -> seq<Key>)
    requires DistinctKeys(ts)
    ensures DistinctKeys(SortBy(ts, key))
  {
    if ts != [] {
      var rest := ts[1..];
      SortByDistinct(rest, key);
      SortByMembers(rest, key);
      var s := SortBy(rest, key);
      forall i | 0 <= i < |s| ensures s[i].key != ts[0].key {
        var k :| 0 <= k < |rest| && rest[k] == s[i];
        assert ts[k + 1] == s[i];
      }
      InsertDistinct(ts[0], s, key);
    }
  }

  /** Sorting the per-day entries by date keeps every per-day fact. */
  lemma SortedTallies(ts: seq<Tally>, keys: seq<string>)
    requires TalliesKeys(ts, keys)
    ensures TalliesKeys(SortBy(ts, TallyKey), keys)
  {
    var r := SortBy(ts, TallyKey);
    SumCountsSortBy(ts, TallyKey);
    SortByDistinct(ts, TallyKey);
    PermutedTallies(ts, r, keys);
  }

  /** A reordering of the entries keeps each one's count and still names
      every key. */
  lemma PermutedTallies(ts: seq<Tally>, r: seq<Tally>, keys: seq<string>)
    requires TalliesKeys(ts, keys) && multiset(r) == multiset(ts)
    ensures forall i :: 0 <= i < |r| ==> r[i].count == Occurrences(keys, r[i].key) && r[i].count >= 1
    ensures forall i :: 0 <= i < |keys| ==> exists j :: 0 <= j < |r| && r[j].key == keys[i]
  {
    forall i | 0 <= i < |r| ensures r[i].count == Occurrences(keys, r[i].key) && r[i].count >= 1 {
      assert r[i] in multiset(r);
      var k :| 0 <= k < |ts| && ts[k] == r[i];
    }
    forall i | 0 <= i < |keys| ensures exists j :: 0 <= j < |r| && r[j].key == keys[i] {
      var j :| 0 <= j < |ts| && ts[j].key == keys[i];
      assert ts[j] in multiset(ts);
      var k :| 0 <= k < |r| && r[k] == ts[j];
      assert r[k].key == keys[i];
    }
  }
}
