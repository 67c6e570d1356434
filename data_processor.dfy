/** The daily aggregation and reshape stage (`DataProcessor`): raw sensor rows are coerced,
    truncated to their date and averaged per (parameter, date); the per-file tables are
    concatenated in file order; the concatenation is pivoted into one row per date and one
    column per parameter. */
module DataProcessing {
  import opened Common
  import opened Text
  import opened Order

  // ---------------------------------------------------------------------------------------
  // Raw rows and daily rows
  // ---------------------------------------------------------------------------------------

  /** One row of a raw measurements file as pandas holds it after parsing: an empty
      `parameter` or `datetime` cell is NaN/NaT, and `value` is the outcome of
      `pd.to_numeric(..., errors='coerce')`, `None` where coercion failed. */
  datatype RawRow = RawRow(parameter: Option<string>, datetime: Option<DateTime>, value: Option<real>)

  /** A raw measurements file. `Unreadable` stands for every way reading it raises: the file
      cannot be read, a required column is missing, or a `datetime` cell cannot be parsed. */
  datatype CsvFile = Unreadable | Csv(rows: seq<RawRow>)

  /** The group key of `groupby(['parameter', 'datetime'])` once `datetime` is a date. */
  datatype Key = Key(parameter: string, date: int)

  /** One row of the daily table, with its columns in the order `datetime, parameter, value`. */
  datatype DailyRow = DailyRow(datetime: int, parameter: string, value: real)

  /** A raw row takes part in a group: its value survived coercion (`dropna(subset=['value'])`)
      and neither key cell is NaN (`groupby` drops NaN keys). */
  predicate Survives(r: RawRow) {
    r.parameter.Some? && r.datetime.Some? && r.value.Some?
  }

  /** The group of a surviving row: its parameter and its timestamp truncated to the date. */
  function KeyOf(r: RawRow): Key
    requires Survives(r)
  {
    Key(r.parameter.value, r.datetime.value.day)
  }

  function RowKey(d: DailyRow): Key {
    Key(d.parameter, d.datetime)
  }

  /** pandas' sort order of group keys: by parameter, then by date. */
  predicate KeyLt(a: Key, b: Key) {
    StrLt(a.parameter, b.parameter) || (a.parameter == b.parameter && a.date < b.date)
  }

  lemma KeyLtIrreflexive(a: Key)
    ensures !KeyLt(a, a)
  {
    StrLtIrreflexive(a.parameter);
  }

  lemma KeyLtTransitive(a: Key, b: Key, c: Key)
    requires KeyLt(a, b) && KeyLt(b, c)
    ensures KeyLt(a, c)
  {
    if StrLt(a.parameter, b.parameter) && StrLt(b.parameter, c.parameter) {
      StrLtTransitive(a.parameter, b.parameter, c.parameter);
    }
  }

  lemma KeyLtTotal(a: Key, b: Key)
    ensures a == b || KeyLt(a, b) || KeyLt(b, a)
  {
    StrLtTotal(a.parameter, b.parameter);
  }

  // ---------------------------------------------------------------------------------------
  // Reference definition of a group: the surviving readings with a given key
  // ---------------------------------------------------------------------------------------

  /** The sum of the surviving readings of `rows` whose key is `k`. */
  function GroupSum(rows: seq<RawRow>, k: Key): real
  {
    if rows == [] then 0.0
    else (if Survives(rows[0]) && KeyOf(rows[0]) == k then rows[0].value.value else 0.0) + GroupSum(rows[1..], k)
  }

  /** The number of surviving readings of `rows` whose key is `k`. */
  function GroupCount(rows: seq<RawRow>, k: Key): nat
  {
    if rows == [] then 0
    else (if Survives(rows[0]) && KeyOf(rows[0]) == k then 1 else 0) + GroupCount(rows[1..], k)
  }

  /** The arithmetic mean of `count` readings adding up to `sum`. */
  function GroupMean(sum: real, count: nat): real
    requires count > 0
  {
    sum / count as real
  }

  /** A group is non-empty exactly when some surviving row carries its key. */
  lemma {:induction false} GroupCountPositive(rows: seq<RawRow>, k: Key)
    ensures GroupCount(rows, k) > 0 <==> exists i :: 0 <= i < |rows| && Survives(rows[i]) && KeyOf(rows[i]) == k
  {
    if rows != [] {
      GroupCountPositive(rows[1..], k);
      if GroupCount(rows[1..], k) > 0 {
        var i :| 0 <= i < |rows[1..]| && Survives(rows[1..][i]) && KeyOf(rows[1..][i]) == k;
        assert rows[i + 1] == rows[1..][i];
      }
      forall i | 1 <= i < |rows| && Survives(rows[i]) && KeyOf(rows[i]) == k
        ensures GroupCount(rows[1..], k) > 0
      {
        assert rows[1..][i - 1] == rows[i];
      }
    }
  }

  lemma {:induction false} EmptyGroupSum(rows: seq<RawRow>, k: Key)
    ensures GroupCount(rows, k) == 0 ==> GroupSum(rows, k) == 0.0
  {
    if rows != [] {
      EmptyGroupSum(rows[1..], k);
    }
  }

  lemma {:induction false} GroupAppend(a: seq<RawRow>, b: seq<RawRow>, k: Key)
    ensures GroupSum(a + b, k) == GroupSum(a, k) + GroupSum(b, k)
    ensures GroupCount(a + b, k) == GroupCount(a, k) + GroupCount(b, k)
    decreases |a|
  {
    if a == [] {
      assert a + b == b;
    } else {
      assert (a + b)[1..] == a[1..] + b;
      GroupAppend(a[1..], b, k);
    }
  }

  /** Reordering the raw rows does not change any group. */
  lemma {:induction false} GroupPermutation(a: seq<RawRow>, b: seq<RawRow>, k: Key)
    requires multiset(a) == multiset(b)
    ensures GroupSum(a, k) == GroupSum(b, k) && GroupCount(a, k) == GroupCount(b, k)
    decreases |a|
  {
    if a == [] {
      assert |b| == |multiset(b)| == 0;
    } else {
      var x := a[0];
      assert x in multiset(a) && x in multiset(b);
      var j :| 0 <= j < |b| && b[j] == x;
      RemoveMatching(a, b, j);
      GroupPermutation(a[1..], b[..j] + b[j + 1..], k);
      GroupWithout(b, j, k);
      GroupAppend([x], a[1..], k);
      assert a == [x] + a[1..];
    }
  }

  /** Taking the first row of `a` and a matching row of `b` out of both keeps them permutations. */
  lemma RemoveMatching(a: seq<RawRow>, b: seq<RawRow>, j: int)
    requires multiset(a) == multiset(b) && a != [] && 0 <= j < |b| && b[j] == a[0]
    ensures multiset(a[1..]) == multiset(b[..j] + b[j + 1..])
  {
    var x := a[0];
    assert a == [x] + a[1..];
    assert b == b[..j] + [x] + b[j + 1..];
    assert multiset(a) == multiset{x} + multiset(a[1..]);
    assert multiset(b) == multiset(b[..j]) + multiset{x} + multiset(b[j + 1..]);
    assert multiset(b[..j] + b[j + 1..]) == multiset(b[..j]) + multiset(b[j + 1..]);
    assert multiset(a[1..]) == multiset(a) - multiset{x};
  }

  /** A group of `b` is the group of its row `j` plus the group of the other rows. */
  lemma GroupWithout(b: seq<RawRow>, j: int, k: Key)
    requires 0 <= j < |b|
    ensures GroupSum(b, k) == GroupSum([b[j]], k) + GroupSum(b[..j] + b[j + 1..], k)
    ensures GroupCount(b, k) == GroupCount([b[j]], k) + GroupCount(b[..j] + b[j + 1..], k)
  {
    assert b == b[..j] + ([b[j]] + b[j + 1..]);
    GroupAppend(b[..j], [b[j]] + b[j + 1..], k);
    GroupAppend([b[j]], b[j + 1..], k);
    GroupAppend(b[..j], b[j + 1..], k);
  }

  // ---------------------------------------------------------------------------------------
  // groupby(...).agg({'value': 'mean'}): a sorted association list built in one pass
  // ---------------------------------------------------------------------------------------

  /** A group being accumulated: its key, the sum of its readings and how many there are. */
  datatype Group = Group(key: Key, sum: real, count: nat)

  predicate SortedGroups(gs: seq<Group>) {
    forall i, j :: 0 <= i < j < |gs| ==> KeyLt(gs[i].key, gs[j].key)
  }

  /** The keys that have a group. */
  function Keys(gs: seq<Group>): set<Key>
  {
    if gs == [] then {} else {gs[0].key} + Keys(gs[1..])
  }

  lemma {:induction false} KeysIndex(gs: seq<Group>, k: Key)
    ensures k in Keys(gs) <==> exists i :: 0 <= i < |gs| && gs[i].key == k
  {
    if gs != [] {
      KeysIndex(gs[1..], k);
      if exists i :: 0 <= i < |gs| && gs[i].key == k {
        var i :| 0 <= i < |gs| && gs[i].key == k;
        if i > 0 {
          assert gs[1..][i - 1].key == k;
        }
      }
      if k in Keys(gs[1..]) {
        var i :| 0 <= i < |gs[1..]| && gs[1..][i].key == k;
        assert gs[i + 1].key == k;
      }
    }
  }

  /** The running totals of key `k`, if it has a group (the first group for a key wins). */
  function Lookup(gs: seq<Group>, k: Key): Option<(real, nat)>
  {
    if gs == [] then None
    else if gs[0].key == k then Some((gs[0].sum, gs[0].count))
    else Lookup(gs[1..], k)
  }

  lemma {:induction false} LookupKeys(gs: seq<Group>, k: Key)
    ensures Lookup(gs, k).Some? <==> k in Keys(gs)
  {
    if gs != [] && gs[0].key != k {
      LookupKeys(gs[1..], k);
    }
  }

  /** In a sorted group list every key occurs once, so each group is what its key looks up. */
  lemma {:induction false} LookupSorted(gs: seq<Group>, i: int)
    requires SortedGroups(gs) && 0 <= i < |gs|
    ensures Lookup(gs, gs[i].key) == Some((gs[i].sum, gs[i].count))
  {
    if i > 0 {
      KeyLtIrreflexive(gs[0].key);
      assert gs[0].key != gs[i].key;
      assert gs[1..][i - 1] == gs[i];
      LookupSorted(gs[1..], i - 1);
    }
  }

  /** The totals after one more reading `v`. */
  function Bump(t: Option<(real, nat)>, v: real): Option<(real, nat)>
  {
    match t
    case None => Some((v, 1))
    case Some((s, c)) => Some((s + v, c + 1))
  }

  /** Adds one reading to the totals: a new key is inserted at its sorted place. */
  function AddReading(gs: seq<Group>, k: Key, v: real): (r: seq<Group>)
    requires SortedGroups(gs)
    ensures SortedGroups(r)
    ensures Keys(r) == Keys(gs) + {k}
    ensures forall k' :: Lookup(r, k') == if k' == k then Bump(Lookup(gs, k), v) else Lookup(gs, k')
  {
    if gs == [] then [Group(k, v, 1)]
    else if gs[0].key == k then
      var r := [Group(k, gs[0].sum + v, gs[0].count + 1)] + gs[1..];
      assert r[1..] == gs[1..];
      r
    else if KeyLt(k, gs[0].key) then
      var r := [Group(k, v, 1)] + gs;
      assert r[1..] == gs;
      NewSmallestKey(gs, k);
      r
    else
      KeyLtTotal(k, gs[0].key);
      assert SortedGroups(gs[1..]);
      var rest := AddReading(gs[1..], k, v);
      var r := [gs[0]] + rest;
      assert r[1..] == rest;
      HeadBelowRest(gs, rest, k);
      r
  }

  /** A key below the first key of a sorted group list is below all of them, and absent. */
  lemma NewSmallestKey(gs: seq<Group>, k: Key)
    requires SortedGroups(gs) && gs != [] && KeyLt(k, gs[0].key)
    ensures forall j :: 0 <= j < |gs| ==> KeyLt(k, gs[j].key)
    ensures Lookup(gs, k).None?
  {
    forall j | 0 <= j < |gs| ensures KeyLt(k, gs[j].key) {
      if j > 0 {
        KeyLtTransitive(k, gs[0].key, gs[j].key);
      }
    }
    KeyLtIrreflexive(k);
    KeysIndex(gs, k);
    LookupKeys(gs, k);
  }

  lemma HeadBelowRest(gs: seq<Group>, rest: seq<Group>, k: Key)
    requires SortedGroups(gs) && gs != [] && KeyLt(gs[0].key, k)
    requires Keys(rest) == Keys(gs[1..]) + {k}
    ensures forall j :: 0 <= j < |rest| ==> KeyLt(gs[0].key, rest[j].key)
  {
    forall j | 0 <= j < |rest| ensures KeyLt(gs[0].key, rest[j].key) {
      KeysIndex(rest, rest[j].key);
      if rest[j].key != k {
        KeysIndex(gs[1..], rest[j].key);
        var i :| 0 <= i < |gs[1..]| && gs[1..][i].key == rest[j].key;
        assert gs[i + 1] == gs[1..][i];
      }
    }
  }

  /** One pass over the rows, adding each surviving reading to its group: the totals of
      every key are the sum and count of exactly the surviving readings with that key. */
  function Accumulate(rows: seq<RawRow>): (gs: seq<Group>)
    ensures SortedGroups(gs)
    ensures forall k :: Lookup(gs, k) == if GroupCount(rows, k) > 0 then Some((GroupSum(rows, k), GroupCount(rows, k))) else None
  {
    if rows == [] then []
    else
      var rest := Accumulate(rows[1..]);
      if Survives(rows[0]) then
        var gs := AddReading(rest, KeyOf(rows[0]), rows[0].value.value);
        forall k ensures Lookup(gs, k) == if GroupCount(rows, k) > 0 then Some((GroupSum(rows, k), GroupCount(rows, k))) else None {
          EmptyGroupSum(rows[1..], k);
        }
        gs
      else
        assert forall k :: GroupSum(rows, k) == GroupSum(rows[1..], k) && GroupCount(rows, k) == GroupCount(rows[1..], k);
        rest
  }

  /** The daily table of one group list: the mean of each group, in key order. */
  function DailyRows(gs: seq<Group>): (out: seq<DailyRow>)
    requires forall i :: 0 <= i < |gs| ==> gs[i].count > 0
    ensures |out| == |gs|
    ensures forall i :: 0 <= i < |gs| ==> out[i] == DailyRow(gs[i].key.date, gs[i].key.parameter, GroupMean(gs[i].sum, gs[i].count))
  {
    if gs == [] then [] else [DailyRow(gs[0].key.date, gs[0].key.parameter, GroupMean(gs[0].sum, gs[0].count))] + DailyRows(gs[1..])
  }

  /** `out` is the daily aggregate of `rows`: sorted by (parameter, date) and so holding at
      most one row per key; one row for each key some surviving row carries and for no other
      key; and each row's value the mean of exactly the surviving readings with its key. */
  ghost predicate IsDailyAggregate(rows: seq<RawRow>, out: seq<DailyRow>) {
    && (forall i, j :: 0 <= i < j < |out| ==> KeyLt(RowKey(out[i]), RowKey(out[j])))
    && (forall i :: 0 <= i < |out| ==> GroupCount(rows, RowKey(out[i])) > 0)
    && (forall i :: 0 <= i < |out| ==>
          out[i].value == GroupMean(GroupSum(rows, RowKey(out[i])), GroupCount(rows, RowKey(out[i]))))
    && (forall k :: GroupCount(rows, k) > 0 ==> exists i :: 0 <= i < |out| && RowKey(out[i]) == k)
  }

  /** `flatten_and_prepare_data`: the daily aggregate of a readable file, or `None` when
      reading or parsing it raises. */
  function FlattenAndPrepare(file: CsvFile): (r: Option<seq<DailyRow>>)
    ensures r.None? <==> file.Unreadable?
    ensures file.Csv? ==> IsDailyAggregate(file.rows, r.value)
  {
    match file
    case Unreadable => None
    case Csv(rows) =>
      var gs := Accumulate(rows);
      forall i | 0 <= i < |gs| ensures gs[i].count > 0 && GroupCount(rows, gs[i].key) == gs[i].count
        && GroupSum(rows, gs[i].key) == gs[i].sum
      {
        LookupSorted(gs, i);
      }
      var out := DailyRows(gs);
      assert forall i :: 0 <= i < |out| ==> RowKey(out[i]) == gs[i].key;
      forall k | GroupCount(rows, k) > 0 ensures exists i :: 0 <= i < |out| && RowKey(out[i]) == k {
        LookupKeys(gs, k);
        KeysIndex(gs, k);
        var i :| 0 <= i < |gs| && gs[i].key == k;
        assert RowKey(out[i]) == k;
      }
      Some(out)
  }

  /** The daily table's row order: by key. */
  predicate DailyLt(a: DailyRow, b: DailyRow) {
    KeyLt(RowKey(a), RowKey(b))
  }

  lemma DailyLtIsOrder()
    ensures StrictOrder(DailyLt)
  {
    forall a: DailyRow ensures !DailyLt(a, a) {
      KeyLtIrreflexive(RowKey(a));
    }
    forall a: DailyRow, b: DailyRow, c: DailyRow | DailyLt(a, b) && DailyLt(b, c) ensures DailyLt(a, c) {
      KeyLtTransitive(RowKey(a), RowKey(b), RowKey(c));
    }
  }

  /** The daily table holds at most one row per (parameter, date). */
  lemma AtMostOneRowPerKey(rows: seq<RawRow>, out: seq<DailyRow>, i: int, j: int)
    requires IsDailyAggregate(rows, out)
    requires 0 <= i < |out| && 0 <= j < |out| && i != j
    ensures RowKey(out[i]) != RowKey(out[j])
  {
    KeyLtIrreflexive(RowKey(out[i]));
  }

  /** The daily table is determined by the groups: two aggregates of raw tables whose
      groups agree are the same table. */
  lemma DailyAggregateDetermined(rows1: seq<RawRow>, rows2: seq<RawRow>, out1: seq<DailyRow>, out2: seq<DailyRow>)
    requires forall k :: GroupSum(rows1, k) == GroupSum(rows2, k) && GroupCount(rows1, k) == GroupCount(rows2, k)
    requires IsDailyAggregate(rows1, out1) && IsDailyAggregate(rows2, out2)
    ensures out1 == out2
  {
    forall x ensures x in out1 <==> x in out2 {
      if x in out1 {
        var i :| 0 <= i < |out1| && out1[i] == x;
        AggregateRowIn(rows1, rows2, out1, out2, i);
      }
      if x in out2 {
        var j :| 0 <= j < |out2| && out2[j] == x;
        AggregateRowIn(rows2, rows1, out2, out1, j);
      }
    }
    DailyLtIsOrder();
    SortedUnique(out1, out2, DailyLt);
  }

  /** A row of one aggregate is a row of the other when their groups agree. */
  lemma AggregateRowIn(rows1: seq<RawRow>, rows2: seq<RawRow>, out1: seq<DailyRow>, out2: seq<DailyRow>, i: int)
    requires forall k :: GroupSum(rows1, k) == GroupSum(rows2, k) && GroupCount(rows1, k) == GroupCount(rows2, k)
    requires IsDailyAggregate(rows1, out1) && IsDailyAggregate(rows2, out2)
    requires 0 <= i < |out1|
    ensures out1[i] in out2
  {
    var k := RowKey(out1[i]);
    assert GroupCount(rows2, k) > 0;
    var j :| 0 <= j < |out2| && RowKey(out2[j]) == k;
    assert out2[j] == out1[i];
  }

  /** Raw tables whose groups agree have the same daily table. */
  lemma SameGroupsSameTable(rows1: seq<RawRow>, rows2: seq<RawRow>)
    requires forall k :: GroupSum(rows1, k) == GroupSum(rows2, k) && GroupCount(rows1, k) == GroupCount(rows2, k)
    ensures FlattenAndPrepare(Csv(rows1)) == FlattenAndPrepare(Csv(rows2))
  {
    DailyAggregateDetermined(rows1, rows2, FlattenAndPrepare(Csv(rows1)).value, FlattenAndPrepare(Csv(rows2)).value);
  }

  /** The daily table does not depend on the order of the raw rows. */
  lemma FlattenOrderIndependent(rows1: seq<RawRow>, rows2: seq<RawRow>)
    requires multiset(rows1) == multiset(rows2)
    ensures FlattenAndPrepare(Csv(rows1)) == FlattenAndPrepare(Csv(rows2))
  {
    forall k ensures GroupSum(rows1, k) == GroupSum(rows2, k) && GroupCount(rows1, k) == GroupCount(rows2, k) {
      GroupPermutation(rows1, rows2, k);
    }
    SameGroupsSameTable(rows1, rows2);
  }

  /** A row whose value failed coercion (or whose parameter or date is missing) is dropped:
      wherever it stands, removing it leaves the daily table unchanged. It is not read as 0. */
  lemma DroppedRowIgnored(pre: seq<RawRow>, bad: RawRow, post: seq<RawRow>)
    requires !Survives(bad)
    ensures FlattenAndPrepare(Csv(pre + [bad] + post)) == FlattenAndPrepare(Csv(pre + post))
  {
    forall k ensures GroupSum(pre + [bad] + post, k) == GroupSum(pre + post, k)
      && GroupCount(pre + [bad] + post, k) == GroupCount(pre + post, k)
    {
      GroupAppend(pre + [bad], post, k);
      GroupAppend(pre, [bad], k);
      GroupAppend(pre, post, k);
    }
    SameGroupsSameTable(pre + [bad] + post, pre + post);
  }

  /** Only the date of a timestamp matters: moving a reading to another time of the same
      day, wherever it stands, leaves the daily table unchanged. */
  lemma TimeOfDayIgnored(pre: seq<RawRow>, r: RawRow, post: seq<RawRow>, timeOfDay: int)
    requires r.datetime.Some?
    ensures FlattenAndPrepare(Csv(pre + [r] + post))
         == FlattenAndPrepare(Csv(pre + [r.(datetime := Some(DateTime(r.datetime.value.day, timeOfDay)))] + post))
  {
    var moved := r.(datetime := Some(DateTime(r.datetime.value.day, timeOfDay)));
    forall k ensures GroupSum(pre + [r] + post, k) == GroupSum(pre + [moved] + post, k)
      && GroupCount(pre + [r] + post, k) == GroupCount(pre + [moved] + post, k)
    {
      GroupAppend(pre + [r], post, k);
      GroupAppend(pre, [r], k);
      GroupAppend(pre + [moved], post, k);
      GroupAppend(pre, [moved], k);
      assert [r][1..] == [] && [moved][1..] == [];
    }
    SameGroupsSameTable(pre + [r] + post, pre + [moved] + post);
  }

  /** Readings of 10 and 20 taken at 08:00 and 20:00 on 2024-01-01 (day 19723) and a
      reading of 15 at 08:00 on 2024-01-02 give one row per day, each with mean 15. */
  lemma DailyMeanExample()
    ensures FlattenAndPrepare(Csv([
              RawRow(Some("no2"), Some(DateTime(19723, 28800)), Some(10.0)),
              RawRow(Some("no2"), Some(DateTime(19723, 72000)), Some(20.0)),
              RawRow(Some("no2"), Some(DateTime(19724, 28800)), Some(15.0))]))
         == Some([DailyRow(19723, "no2", 15.0), DailyRow(19724, "no2", 15.0)])
  {
    var r1 := RawRow(Some("no2"), Some(DateTime(19723, 28800)), Some(10.0));
    var r2 := RawRow(Some("no2"), Some(DateTime(19723, 72000)), Some(20.0));
    var r3 := RawRow(Some("no2"), Some(DateTime(19724, 28800)), Some(15.0));
    var expected := [DailyRow(19723, "no2", 15.0), DailyRow(19724, "no2", 15.0)];
    DailyMeanAggregate(r1, r2, r3, expected);
    DailyAggregateDetermined([r1, r2, r3], [r1, r2, r3], FlattenAndPrepare(Csv([r1, r2, r3])).value, expected);
  }

  /** The table of `DailyMeanExample` is the daily aggregate of its readings. */
  lemma DailyMeanAggregate(r1: RawRow, r2: RawRow, r3: RawRow, expected: seq<DailyRow>)
    requires r1 == RawRow(Some("no2"), Some(DateTime(19723, 28800)), Some(10.0))
    requires r2 == RawRow(Some("no2"), Some(DateTime(19723, 72000)), Some(20.0))
    requires r3 == RawRow(Some("no2"), Some(DateTime(19724, 28800)), Some(15.0))
    requires expected == [DailyRow(19723, "no2", 15.0), DailyRow(19724, "no2", 15.0)]
    ensures IsDailyAggregate([r1, r2, r3], expected)
  {
    var rows := [r1, r2, r3];
    var k1, k2 := Key("no2", 19723), Key("no2", 19724);
    assert rows[1..] == [r2, r3] && rows[1..][1..] == [r3] && rows[1..][1..][1..] == [];
    assert Survives(r1) && Survives(r2) && Survives(r3);
    assert KeyOf(r1) == k1 && KeyOf(r2) == k1 && KeyOf(r3) == k2;
    forall k ensures GroupCount(rows, k) == (if k == k1 then 2 else if k == k2 then 1 else 0)
      && GroupSum(rows, k) == (if k == k1 then 30.0 else if k == k2 then 15.0 else 0.0)
    {
      assert GroupCount([r3], k) == (if k == k2 then 1 else 0) + GroupCount([], k);
      assert GroupSum([r3], k) == (if k == k2 then 15.0 else 0.0) + GroupSum([], k);
      assert GroupCount([r2, r3], k) == (if k == k1 then 1 else 0) + GroupCount([r3], k);
      assert GroupSum([r2, r3], k) == (if k == k1 then 20.0 else 0.0) + GroupSum([r3], k);
    }
    assert RowKey(expected[0]) == k1 && RowKey(expected[1]) == k2;
    StrLtIrreflexive("no2");
  }

  /** A single reading makes a one-row daily table holding that reading. */
  lemma SingleReadingTable(p: string, t: DateTime, v: real)
    ensures FlattenAndPrepare(Csv([RawRow(Some(p), Some(t), Some(v))])) == Some([DailyRow(t.day, p, v)])
  {
    var r := RawRow(Some(p), Some(t), Some(v));
    var rows := [r];
    var key := Key(p, t.day);
    assert Survives(r) && KeyOf(r) == key;
    assert rows[1..] == [];
    forall k ensures GroupCount(rows, k) == (if k == key then 1 else 0) && GroupSum(rows, k) == (if k == key then v else 0.0) {
      assert GroupCount(rows, k) == (if k == key then 1 else 0) + GroupCount([], k);
      assert GroupSum(rows, k) == (if k == key then v else 0.0) + GroupSum([], k);
    }
    var expected := [DailyRow(t.day, p, v)];
    assert RowKey(expected[0]) == key;
    assert IsDailyAggregate(rows, expected) by {
      forall k | GroupCount(rows, k) > 0 ensures exists i :: 0 <= i < |expected| && RowKey(expected[i]) == k {
        assert RowKey(expected[0]) == k;
      }
    }
    DailyAggregateDetermined(rows, rows, FlattenAndPrepare(Csv(rows)).value, expected);
  }

  /** A reading of 10 beside a reading whose value failed coercion on the same day gives 10,
      not the 5 that reading the failure as 0 would give. */
  lemma FailedCoercionNotZero(p: string, day: int)
    ensures FlattenAndPrepare(Csv([
              RawRow(Some(p), Some(DateTime(day, 0)), Some(10.0)),
              RawRow(Some(p), Some(DateTime(day, 3600)), None)]))
         == Some([DailyRow(day, p, 10.0)])
  {
    var r1 := RawRow(Some(p), Some(DateTime(day, 0)), Some(10.0));
    var bad := RawRow(Some(p), Some(DateTime(day, 3600)), None);
    DroppedRowIgnored([r1], bad, []);
    assert [r1] + [bad] + [] == [r1, bad] && [r1] + [] == [r1];
    SingleReadingTable(p, DateTime(day, 0), 10.0);
  }

  // ---------------------------------------------------------------------------------------
  // process_all_csv_files: per-file tables concatenated in file order
  // ---------------------------------------------------------------------------------------

  /** A readable file yields a non-empty daily table exactly when one of its rows survives. */
  lemma DailyTableNonEmpty(rows: seq<RawRow>)
    ensures FlattenAndPrepare(Csv(rows)).value != [] <==> exists j :: 0 <= j < |rows| && Survives(rows[j])
  {
    var out := FlattenAndPrepare(Csv(rows)).value;
    if out != [] {
      GroupCountPositive(rows, RowKey(out[0]));
    }
    if exists j :: 0 <= j < |rows| && Survives(rows[j]) {
      var j :| 0 <= j < |rows| && Survives(rows[j]);
      GroupCountPositive(rows, KeyOf(rows[j]));
    }
  }

  /** The tables that `all_dfs` collects, in file order: the daily table of each readable
      file whose table is not empty. An unreadable file is skipped. */
  function Contributions(files: seq<CsvFile>): (dfs: seq<seq<DailyRow>>)
    ensures |dfs| <= |files|
    ensures forall i :: 0 <= i < |dfs| ==> dfs[i] != []
  {
    if files == [] then []
    else
      var prev := Contributions(files[..|files| - 1]);
      var df := FlattenAndPrepare(files[|files| - 1]);
      if df.Some? && df.value != [] then prev + [df.value] else prev
  }

  /** The `i`-th file adds its daily table to those of the files before it, if the table
      is there and not empty. */
  lemma ContributionsStep(files: seq<CsvFile>, i: int)
    requires 0 <= i < |files|
    ensures Contributions(files[..i + 1])
      == var df := FlattenAndPrepare(files[i]);
         if df.Some? && df.value != [] then Contributions(files[..i]) + [df.value] else Contributions(files[..i])
  {
    var s := files[..i + 1];
    assert s[..|s| - 1] == files[..i] && s[|s| - 1] == files[i];
  }

  /** `pd.concat(tables, ignore_index=True)`: the rows of the tables one after another. */
  function Concat(tables: seq<seq<DailyRow>>): seq<DailyRow>
  {
    if tables == [] then [] else Concat(tables[..|tables| - 1]) + tables[|tables| - 1]
  }

  /** The daily rows of one file: its table, or none when it cannot be read. */
  function RowsOf(file: CsvFile): seq<DailyRow>
  {
    match FlattenAndPrepare(file)
    case None => []
    case Some(t) => t
  }

  /** Every file's daily rows, file after file. */
  function AllDailyRows(files: seq<CsvFile>): seq<DailyRow>
  {
    if files == [] then [] else AllDailyRows(files[..|files| - 1]) + RowsOf(files[|files| - 1])
  }

  /** Skipping empty tables loses nothing: the concatenation of the collected tables is every
      file's daily rows in file order, without regrouping across files. */
  lemma {:induction false} ConcatKeepsFileOrder(files: seq<CsvFile>)
    ensures Concat(Contributions(files)) == AllDailyRows(files)
  {
    if files != [] {
      var init := files[..|files| - 1];
      var last := files[|files| - 1];
      ConcatKeepsFileOrder(init);
      var prev := Contributions(init);
      var df := FlattenAndPrepare(last);
      assert AllDailyRows(files) == AllDailyRows(init) + RowsOf(last);
      if df.Some? && df.value != [] {
        var next := prev + [df.value];
        assert Contributions(files) == next;
        assert next[..|next| - 1] == prev && next[|next| - 1] == df.value;
        assert Concat(next) == Concat(prev) + df.value;
      } else {
        assert Contributions(files) == prev;
        assert RowsOf(last) == [];
        assert AllDailyRows(init) + [] == AllDailyRows(init);
      }
    }
  }

  /** A file whose daily table is non-empty: it can be read and one of its rows survives. */
  ghost predicate Contributes(file: CsvFile) {
    file.Csv? && exists j :: 0 <= j < |file.rows| && Survives(file.rows[j])
  }

  /** Some table is collected exactly when some readable file has a surviving row. */
  lemma {:induction false} ContributesIff(files: seq<CsvFile>)
    ensures Contributions(files) != [] <==> exists i :: 0 <= i < |files| && Contributes(files[i])
  {
    if files != [] {
      var init := files[..|files| - 1];
      var last := files[|files| - 1];
      ContributesIff(init);
      if last.Csv? {
        DailyTableNonEmpty(last.rows);
      }
      SomeContributorSplit(files, init);
    }
  }

  /** Some file contributes exactly when one before the last does or the last one does. */
  lemma SomeContributorSplit(files: seq<CsvFile>, init: seq<CsvFile>)
    requires files != [] && init == files[..|files| - 1]
    ensures (exists i :: 0 <= i < |files| && Contributes(files[i]))
        <==> (exists i :: 0 <= i < |init| && Contributes(init[i])) || Contributes(files[|files| - 1])
  {
    if exists i :: 0 <= i < |files| && Contributes(files[i]) {
      var i :| 0 <= i < |files| && Contributes(files[i]);
      if i < |init| {
        assert init[i] == files[i];
      }
    }
    if exists i :: 0 <= i < |init| && Contributes(init[i]) {
      var i :| 0 <= i < |init| && Contributes(init[i]);
      assert files[i] == init[i];
    }
  }

  /** `process_all_csv_files` as written: `df.empty` is read on the result of every file, and
      for an unreadable file that result is `None`, so the loop raises AttributeError there
      (`None` here) and the method ends before assigning anything. */
  function ContributionsAsWritten(files: seq<CsvFile>): Option<seq<seq<DailyRow>>>
  {
    if files == [] then Some([])
    else
      match ContributionsAsWritten(files[..|files| - 1])
      case None => None
      case Some(prev) =>
        match FlattenAndPrepare(files[|files| - 1])
        case None => None
        case Some(df) => Some(if df != [] then prev + [df] else prev)
  }

  /** As written, one unreadable file anywhere aborts the whole run; otherwise the loop
      collects what `Contributions` collects. */
  lemma {:induction false} AsWrittenAbortsOnUnreadable(files: seq<CsvFile>)
    ensures ContributionsAsWritten(files) == if Unreadable in files then None else Some(Contributions(files))
  {
    if files != [] {
      var init := files[..|files| - 1];
      var last := files[|files| - 1];
      AsWrittenAbortsOnUnreadable(init);
      InSplit(files, Unreadable);
    }
  }

  /** An unreadable first file and a readable second one: as written the run raises, while
      skipping the unreadable file keeps the second file's table. */
  lemma UnreadableFileDiscrepancy()
    ensures ContributionsAsWritten([Unreadable, Csv([RawRow(Some("no2"), Some(DateTime(19723, 0)), Some(10.0))])]) == None
    ensures Contributions([Unreadable, Csv([RawRow(Some("no2"), Some(DateTime(19723, 0)), Some(10.0))])])
         == [[DailyRow(19723, "no2", 10.0)]]
  {
    var files := [Unreadable, Csv([RawRow(Some("no2"), Some(DateTime(19723, 0)), Some(10.0))])];
    assert files[..1] == [Unreadable] && files[..1][..0] == [];
    SingleReadingTable("no2", DateTime(19723, 0), 10.0);
  }

  // ---------------------------------------------------------------------------------------
  // create_parameter_timeseries: pivot of the long daily table
  // ---------------------------------------------------------------------------------------

  /** The wide table: the sorted dates (index), the sorted parameters (columns) and, for each
      date, the parameters that have a value on it. A parameter absent from a date's map is a
      missing cell. */
  datatype Timeseries = Timeseries(index: seq<int>, columns: seq<string>, cells: map<int, map<string, real>>)

  /** Why no wide table is written: no aggregated table was ever saved (`read_csv(None)`
      raises), or `pivot` refused a repeated (date, parameter) pair. */
  datatype TimeseriesError = NoAggregatedData | DuplicateEntries

  /** Two rows of the long table share a date and a parameter. */
  predicate HasDuplicateEntries(long: seq<DailyRow>) {
    exists i, j :: 0 <= i < j < |long| && long[i].datetime == long[j].datetime && long[i].parameter == long[j].parameter
  }

  /** Some row of the long table has this date. */
  ghost predicate HasDate(long: seq<DailyRow>, d: int) {
    exists row :: row in long && row.datetime == d
  }

  /** Some row of the long table has this parameter. */
  ghost predicate HasParameter(long: seq<DailyRow>, p: string) {
    exists row :: row in long && row.parameter == p
  }

  /** Some row of the long table has this date and this parameter. */
  ghost predicate HasCell(long: seq<DailyRow>, d: int, p: string) {
    exists row :: row in long && row.datetime == d && row.parameter == p
  }

  /** An element of a non-empty sequence is in its front or is its last element. */
  lemma InSplit<T>(s: seq<T>, x: T)
    requires s != []
    ensures x in s <==> x in s[..|s| - 1] || x == s[|s| - 1]
  {
    assert s == s[..|s| - 1] + [s[|s| - 1]];
  }

  lemma InInit<T>(s: seq<T>, x: T)
    requires s != [] && x in s && x != s[|s| - 1]
    ensures x in s[..|s| - 1]
  {
    var i :| 0 <= i < |s| && s[i] == x;
    assert s[..|s| - 1][i] == x;
  }

  /** The distinct dates of the long table, ascending. */
  function DatesOf(long: seq<DailyRow>): (r: seq<int>)
    ensures SortedBy(r, IntLt)
    ensures forall d :: d in r <==> HasDate(long, d)
  {
    if long == [] then []
    else
      var init := long[..|long| - 1];
      var last := long[|long| - 1];
      var prev := DatesOf(init);
      IntLtIsOrder();
      var r := Insert(prev, last.datetime, IntLt);
      assert forall d :: d in r <==> HasDate(long, d) by {
        forall d ensures d in r <==> HasDate(long, d) {
          if HasDate(long, d) && d != last.datetime {
            var row :| row in long && row.datetime == d;
            InInit(long, row);
          }
        }
      }
      r
  }

  /** The distinct parameters of the long table, in Python's string order. */
  function ParametersOf(long: seq<DailyRow>): (r: seq<string>)
    ensures SortedBy(r, StrLt)
    ensures forall p :: p in r <==> HasParameter(long, p)
  {
    if long == [] then []
    else
      var init := long[..|long| - 1];
      var last := long[|long| - 1];
      var prev := ParametersOf(init);
      StrLtIsOrder();
      var r := Insert(prev, last.parameter, StrLt);
      assert forall p :: p in r <==> HasParameter(long, p) by {
        forall p ensures p in r <==> HasParameter(long, p) {
          if HasParameter(long, p) && p != last.parameter {
            var row :| row in long && row.parameter == p;
            InInit(long, row);
          }
        }
      }
      r
  }

  /** The cells of the wide table, filled row by row from the long table. */
  function CellsOf(long: seq<DailyRow>): (r: map<int, map<string, real>>)
    ensures forall d :: d in r <==> HasDate(long, d)
    ensures forall d, p :: d in r && p in r[d] <==> HasCell(long, d, p)
  {
    if long == [] then map[]
    else
      var init := long[..|long| - 1];
      var last := long[|long| - 1];
      var prev := CellsOf(init);
      var row := if last.datetime in prev then prev[last.datetime] else map[];
      var r := prev[last.datetime := row[last.parameter := last.value]];
      assert forall d :: d in r <==> HasDate(long, d) by {
        forall d ensures d in r <==> HasDate(long, d) {
          if HasDate(long, d) && d != last.datetime {
            var x :| x in long && x.datetime == d;
            InInit(long, x);
          }
        }
      }
      assert forall d, p :: d in r && p in r[d] <==> HasCell(long, d, p) by {
        forall d, p ensures d in r && p in r[d] <==> HasCell(long, d, p) {
          if HasCell(long, d, p) && (d != last.datetime || p != last.parameter) {
            var x :| x in long && x.datetime == d && x.parameter == p;
            InInit(long, x);
          }
        }
      }
      r
  }

  /** Without repeated pairs, each cell holds the value of the long-table row with that
      date and parameter. */
  lemma CellValues(long: seq<DailyRow>)
    requires !HasDuplicateEntries(long)
    ensures forall i :: 0 <= i < |long| ==>
      long[i].datetime in CellsOf(long) && long[i].parameter in CellsOf(long)[long[i].datetime]
      && CellsOf(long)[long[i].datetime][long[i].parameter] == long[i].value
  {
    forall i | 0 <= i < |long|
      ensures long[i].datetime in CellsOf(long) && long[i].parameter in CellsOf(long)[long[i].datetime]
        && CellsOf(long)[long[i].datetime][long[i].parameter] == long[i].value
    {
      CellValue(long, i);
    }
  }

  lemma {:induction false} CellValue(long: seq<DailyRow>, i: int)
    requires !HasDuplicateEntries(long) && 0 <= i < |long|
    ensures long[i].datetime in CellsOf(long) && long[i].parameter in CellsOf(long)[long[i].datetime]
    ensures CellsOf(long)[long[i].datetime][long[i].parameter] == long[i].value
  {
    var init := long[..|long| - 1];
    var last := long[|long| - 1];
    if i < |long| - 1 {
      assert !HasDuplicateEntries(init) by {
        forall a, b | 0 <= a < b < |init|
          ensures init[a].datetime != init[b].datetime || init[a].parameter != init[b].parameter
        {
          assert init[a] == long[a] && init[b] == long[b];
        }
      }
      CellValue(init, i);
      assert long[i] == init[i];
      assert long[i].datetime != last.datetime || long[i].parameter != last.parameter;
    }
  }

  /** The wide table `out` is the pivot of `long`: dates ascending as its index, parameters
      sorted as its columns, a cell exactly for each (date, parameter) the long table holds,
      and that cell holding the long table's value. */
  ghost predicate IsPivotOf(long: seq<DailyRow>, out: Timeseries) {
    && SortedBy(out.index, IntLt)
    && SortedBy(out.columns, StrLt)
    && (forall d :: d in out.index <==> HasDate(long, d))
    && (forall p :: p in out.columns <==> HasParameter(long, p))
    && (forall d :: d in out.cells <==> HasDate(long, d))
    && (forall d, p :: d in out.cells && p in out.cells[d] <==> HasCell(long, d, p))
    && (forall row :: row in long ==>
          row.datetime in out.cells && row.parameter in out.cells[row.datetime]
          && out.cells[row.datetime][row.parameter] == row.value)
  }

  /** `df.pivot(index='datetime', columns='parameter', values='value')`. */
  function Pivot(long: seq<DailyRow>): (r: Result<Timeseries, TimeseriesError>)
    ensures r.Failure? <==> HasDuplicateEntries(long)
    ensures r.Failure? ==> r.error == DuplicateEntries
    ensures r.Success? ==> IsPivotOf(long, r.value)
  {
    if HasDuplicateEntries(long) then Failure(DuplicateEntries)
    else
      var cells := CellsOf(long);
      CellValues(long);
      assert forall row :: row in long ==>
        row.datetime in cells && row.parameter in cells[row.datetime] && cells[row.datetime][row.parameter] == row.value
      by {
        forall row | row in long
          ensures row.datetime in cells && row.parameter in cells[row.datetime] && cells[row.datetime][row.parameter] == row.value
        {
          var i :| 0 <= i < |long| && long[i] == row;
        }
      }
      Success(Timeseries(DatesOf(long), ParametersOf(long), cells))
  }

  /** The pivot is determined by the long table: two wide tables that are both its pivot are equal. */
  lemma PivotDetermined(long: seq<DailyRow>, t1: Timeseries, t2: Timeseries)
    requires IsPivotOf(long, t1) && IsPivotOf(long, t2)
    ensures t1 == t2
  {
    IntLtIsOrder();
    StrLtIsOrder();
    forall d ensures d in t1.index <==> d in t2.index {
      assert d in t1.index <==> HasDate(long, d);
    }
    SortedUnique(t1.index, t2.index, IntLt);
    SortedUnique(t1.columns, t2.columns, StrLt);
    forall d | d in t1.cells ensures t1.cells[d] == t2.cells[d] {
      forall p | p in t1.cells[d] ensures p in t2.cells[d] && t1.cells[d][p] == t2.cells[d][p] {
        var row :| row in long && row.datetime == d && row.parameter == p;
      }
      forall p | p in t2.cells[d] ensures p in t1.cells[d] {
        assert HasCell(long, d, p);
      }
      assert t1.cells[d].Keys == t2.cells[d].Keys;
    }
    forall d ensures d in t1.cells <==> d in t2.cells {
      assert d in t1.cells <==> HasDate(long, d);
    }
    assert t1.cells.Keys == t2.cells.Keys;
    assert t1.cells == t2.cells;
  }

  /** Readings of `no2` on two days and of `o3` on the first only: two dates, two columns,
      and a missing `o3` cell on the second day. */
  lemma PivotExample()
    ensures Pivot([DailyRow(19723, "no2", 15.0), DailyRow(19723, "o3", 30.0), DailyRow(19724, "no2", 15.0)])
         == Success(Timeseries([19723, 19724], ["no2", "o3"],
                               map[19723 := map["no2" := 15.0, "o3" := 30.0], 19724 := map["no2" := 15.0]]))
  {
    var long := [DailyRow(19723, "no2", 15.0), DailyRow(19723, "o3", 30.0), DailyRow(19724, "no2", 15.0)];
    var expected := Timeseries([19723, 19724], ["no2", "o3"],
                               map[19723 := map["no2" := 15.0, "o3" := 30.0], 19724 := map["no2" := 15.0]]);
    PivotExampleShape(long, expected);
    PivotExampleNoDuplicates(long);
    PivotDetermined(long, Pivot(long).value, expected);
  }

  lemma PivotExampleShape(long: seq<DailyRow>, expected: Timeseries)
    requires long == [DailyRow(19723, "no2", 15.0), DailyRow(19723, "o3", 30.0), DailyRow(19724, "no2", 15.0)]
    requires expected == Timeseries([19723, 19724], ["no2", "o3"],
                                    map[19723 := map["no2" := 15.0, "o3" := 30.0], 19724 := map["no2" := 15.0]])
    ensures IsPivotOf(long, expected)
  {
    assert StrLt("no2", "o3");
    PivotExampleLabels(long, expected);
    PivotExampleCells(long, expected);
  }

  /** No two rows of `PivotExample` share a date and a parameter. */
  lemma PivotExampleNoDuplicates(long: seq<DailyRow>)
    requires long == [DailyRow(19723, "no2", 15.0), DailyRow(19723, "o3", 30.0), DailyRow(19724, "no2", 15.0)]
    ensures !HasDuplicateEntries(long)
  {
    assert long[0].parameter != long[1].parameter by {
      assert long[0].parameter[0] != long[1].parameter[0];
    }
  }

  /** The dates and parameters of `PivotExample`. */
  lemma PivotExampleLabels(long: seq<DailyRow>, expected: Timeseries)
    requires long == [DailyRow(19723, "no2", 15.0), DailyRow(19723, "o3", 30.0), DailyRow(19724, "no2", 15.0)]
    requires expected == Timeseries([19723, 19724], ["no2", "o3"],
                                    map[19723 := map["no2" := 15.0, "o3" := 30.0], 19724 := map["no2" := 15.0]])
    ensures forall d :: d in expected.index <==> HasDate(long, d)
    ensures forall p :: p in expected.columns <==> HasParameter(long, p)
    ensures forall d :: d in expected.cells <==> HasDate(long, d)
  {
    assert forall row :: row in long <==> row == long[0] || row == long[1] || row == long[2];
    forall d ensures d in expected.index <==> HasDate(long, d) {
      assert d == 19723 ==> long[0] in long;
      assert d == 19724 ==> long[2] in long;
    }
    forall p ensures p in expected.columns <==> HasParameter(long, p) {
      assert p == "no2" ==> long[0] in long;
      assert p == "o3" ==> long[1] in long;
    }
    forall d ensures d in expected.cells <==> HasDate(long, d) {
      assert d in expected.cells <==> d in expected.index;
    }
  }

  /** The cells of `PivotExample`. */
  lemma PivotExampleCells(long: seq<DailyRow>, expected: Timeseries)
    requires long == [DailyRow(19723, "no2", 15.0), DailyRow(19723, "o3", 30.0), DailyRow(19724, "no2", 15.0)]
    requires expected == Timeseries([19723, 19724], ["no2", "o3"],
                                    map[19723 := map["no2" := 15.0, "o3" := 30.0], 19724 := map["no2" := 15.0]])
    ensures forall d, p :: d in expected.cells && p in expected.cells[d] <==> HasCell(long, d, p)
    ensures forall row :: row in long ==>
      row.datetime in expected.cells && row.parameter in expected.cells[row.datetime]
      && expected.cells[row.datetime][row.parameter] == row.value
  {
    assert forall row :: row in long <==> row == long[0] || row == long[1] || row == long[2];
    forall d, p ensures d in expected.cells && p in expected.cells[d] <==> HasCell(long, d, p) {
      assert d == 19723 && p == "no2" ==> long[0] in long;
      assert d == 19723 && p == "o3" ==> long[1] in long;
      assert d == 19724 && p == "no2" ==> long[2] in long;
    }
  }

  /** Tables are concatenated without regrouping: two files with a reading of the same
      parameter on the same day give two rows with that pair, and the pivot then fails. */
  lemma OverlappingFilesPivotFails(p: string, t1: DateTime, t2: DateTime, v1: real, v2: real)
    requires t1.day == t2.day
    ensures AllDailyRows([Csv([RawRow(Some(p), Some(t1), Some(v1))]), Csv([RawRow(Some(p), Some(t2), Some(v2))])])
         == [DailyRow(t1.day, p, v1), DailyRow(t1.day, p, v2)]
    ensures Pivot(AllDailyRows([Csv([RawRow(Some(p), Some(t1), Some(v1))]), Csv([RawRow(Some(p), Some(t2), Some(v2))])])).Failure?
  {
    var files := [Csv([RawRow(Some(p), Some(t1), Some(v1))]), Csv([RawRow(Some(p), Some(t2), Some(v2))])];
    SingleReadingTable(p, t1, v1);
    SingleReadingTable(p, t2, v2);
    assert files[..1] == [files[0]] && files[..1][..0] == [];
    assert AllDailyRows(files[..1]) == [] + RowsOf(files[0]);
    var long := AllDailyRows(files);
    assert long == [DailyRow(t1.day, p, v1)] + [DailyRow(t1.day, p, v2)];
    assert long[0].datetime == long[1].datetime && long[0].parameter == long[1].parameter;
  }

  // ---------------------------------------------------------------------------------------
  // The DataProcessor object
  // ---------------------------------------------------------------------------------------

  /** The processor of one data directory. `csvFiles` stands for the `glob` of the directory's
      CSV files, already read; it is a generator, so the first pass over it exhausts it.
      `aggregatedData` stands for `aggregated_data_path` together with the CSV file it names:
      `None` until a table has been written. `timeseriesData` is the wide table written to
      `timeseries_data.csv`. */
  class DataProcessor {
    var csvFiles: seq<CsvFile>
    var aggregatedData: Option<seq<DailyRow>>
    var timeseriesData: Option<Timeseries>

    constructor(files: seq<CsvFile>)
      ensures csvFiles == files && aggregatedData == None && timeseriesData == None
    {
      csvFiles := files;
      aggregatedData := None;
      timeseriesData := None;
    }

    /** `process_all_csv_files`, skipping a file that cannot be read: the non-empty daily
        tables are collected in file order and, if there is at least one, their
        concatenation is stored; otherwise the stored table is left as it was. */
    method ProcessAllCsvFiles()
      modifies this
      ensures csvFiles == []
      ensures aggregatedData == if Contributions(old(csvFiles)) == [] then old(aggregatedData)
                                else Some(AllDailyRows(old(csvFiles)))
      ensures timeseriesData == old(timeseriesData)
    {
      var files := csvFiles;
      var allDfs: seq<seq<DailyRow>> := [];
      for i := 0 to |files|
        invariant allDfs == Contributions(files[..i])
        invariant unchanged(this)
      {
        ContributionsStep(files, i);
        var df := FlattenAndPrepare(files[i]);
        if df.Some? && df.value != [] {
          allDfs := allDfs + [df.value];
        }
      }
      assert files[..|files|] == files;
      csvFiles := [];
      if allDfs != [] {
        ConcatKeepsFileOrder(files);
        aggregatedData := Some(Concat(allDfs));
      }
    }

    /** `create_parameter_timeseries`: reading the stored table fails when none was ever
        written; otherwise the wide table is its pivot, stored when the pivot succeeds. */
    method CreateParameterTimeseries() returns (r: Result<Timeseries, TimeseriesError>)
      modifies this
      ensures aggregatedData.None? ==> r == Failure(NoAggregatedData)
      ensures aggregatedData.Some? ==> r == Pivot(aggregatedData.value)
      ensures timeseriesData == if r.Success? then Some(r.value) else old(timeseriesData)
      ensures csvFiles == old(csvFiles) && aggregatedData == old(aggregatedData)
    {
      if aggregatedData.None? {
        return Failure(NoAggregatedData);
      }
      r := Pivot(aggregatedData.value);
      if r.Success? {
        timeseriesData := Some(r.value);
      }
    }
  }
}
