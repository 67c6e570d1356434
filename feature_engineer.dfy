/** `FeatureEngineer`: a shared data frame that its methods extend in place with calendar, lag and
    rolling-window columns. */
module FeatureEngineering {
  import opened Common
  import opened Text
  import opened FeatureNames

  /** One cell of a column: a missing value (NaN / NaT), a float, an integer, a boolean or
      a timestamp. */
  datatype Cell = Missing | Num(x: real) | Int(i: int) | Flag(b: bool) | Time(t: DateTime)

  /** A data frame: column names in order, the column under each name, and the row count. */
  datatype Table = Table(names: seq<string>, columns: map<string, seq<Cell>>, rows: nat)

  /** Distinct column names, one column per name, every column `rows` long. */
  ghost predicate WellFormed(t: Table) {
    && (forall i, j :: 0 <= i < j < |t.names| ==> t.names[i] != t.names[j])
    && (forall n :: n in t.columns <==> n in t.names)
    && (forall n :: n in t.columns ==> |t.columns[n]| == t.rows)
  }

  /** `u` is `t` with columns possibly added at the end or overwritten: same row count, and
      `t`'s names still come first and in order. */
  ghost predicate Extends(u: Table, t: Table) {
    && WellFormed(u)
    && u.rows == t.rows
    && |t.names| <= |u.names|
    && u.names[..|t.names|] == t.names
  }

  /** `u` differs from `t` at most in the columns named in `targets`: every other column of
      `t` is still there unchanged, and every column of `u` is one of `t`'s or a target. */
  ghost predicate OnlyChanges(u: Table, t: Table, targets: seq<string>) {
    && (forall n :: n in t.columns && n !in targets ==> n in u.columns && u.columns[n] == t.columns[n])
    && (forall n :: n in u.columns ==> n in t.columns || n in targets)
  }

  lemma ExtendsTransitive(v: Table, u: Table, t: Table)
    requires Extends(v, u) && Extends(u, t)
    ensures Extends(v, t)
  {
    assert v.names[..|t.names|] == v.names[..|u.names|][..|t.names|];
  }

  /** Why a method raised. */
  datatype FeatureError = KeyError(column: string) | NotDatetimeLike | InvalidWindow | NotNumeric

  datatype Status = Done | Raised(error: FeatureError)

  /** The table after a method, and whether the method returned or raised. A method that
      raises part-way keeps the columns it assigned before raising. */
  datatype Outcome = Outcome(table: Table, status: Status)

  /** `df[name] = col`: a new name goes after the existing ones; an existing column is
      replaced where it stands. */
  function Assign(t: Table, name: string, col: seq<Cell>): Table {
    Table(if name in t.columns then t.names else t.names + [name], t.columns[name := col], t.rows)
  }

  /** Assigning a column of the right length keeps a table well formed and extends it. */
  lemma AssignExtends(t: Table, name: string, col: seq<Cell>)
    requires WellFormed(t) && |col| == t.rows
    ensures Extends(Assign(t, name, col), t)
  {
    var u := Assign(t, name, col);
    if name in t.columns {
      assert u.names == t.names && u.names[..|t.names|] == t.names;
    } else {
      assert u.names == t.names + [name] && u.names[..|t.names|] == t.names;
      forall i, j | 0 <= i < j < |u.names| ensures u.names[i] != u.names[j] {
        if j == |t.names| {
          assert u.names[i] == t.names[i] && t.names[i] in t.columns;
        }
      }
    }
  }

  /** Assigning a column the value it already holds changes nothing. */
  lemma AssignSame(t: Table, name: string)
    requires name in t.columns
    ensures Assign(t, name, t.columns[name]) == t
  {
    assert t.columns[name := t.columns[name]] == t.columns;
  }

  // ---------------------------------------------------------------------------------------
  // shift
  // ---------------------------------------------------------------------------------------

  /** `Series.shift(k)`: the column moved down by `k` rows (up by `-k` when `k` is negative),
      with missing cells where nothing moved in. */
  function Shift(col: seq<Cell>, k: int): (r: seq<Cell>)
    ensures |r| == |col|
  {
    seq(|col|, i requires 0 <= i < |col| => if 0 <= i - k < |col| then col[i - k] else Missing)
  }

  /** Shifting by `a` and then by `b` rows (both non-negative) is shifting by `a + b`: the
      lag of a lag is the lag of the sum, so lag columns line up with one another. */
  lemma ShiftShift(col: seq<Cell>, a: nat, b: nat)
    ensures Shift(Shift(col, a), b) == Shift(col, a + b)
  {
    var once := Shift(col, a);
    forall i | 0 <= i < |col| ensures Shift(once, b)[i] == Shift(col, a + b)[i] {
      if 0 <= i - b {
        assert Shift(once, b)[i] == once[i - b];
      }
    }
  }

  /** `no2` readings 15, 20, 25 shifted by one: a missing first cell, then 15 and 20. The
      first cell is not filled from a later one. */
  lemma ShiftExample()
    ensures Shift([Num(15.0), Num(20.0), Num(25.0)], 1) == [Missing, Num(15.0), Num(20.0)]
  {
    var r := Shift([Num(15.0), Num(20.0), Num(25.0)], 1);
    assert r[0] == Missing && r[1] == Num(15.0) && r[2] == Num(20.0);
  }

  // ---------------------------------------------------------------------------------------
  // calendar features
  // ---------------------------------------------------------------------------------------

  const TimestampName := "timestamp"
  const DayOfWeekName := "day_of_week"
  const IsWeekendName := "is_weekend"

  /** `Timestamp.dayofweek` of a day counted from 1970-01-01: Monday is 0, Sunday is 6. */
  function DayOfWeek(day: int): (r: int)
    ensures 0 <= r < 7
  {
    (day + 3) % 7
  }

  /** The weekday advances by one each day, wrapping from Sunday to Monday. */
  lemma DayOfWeekNextDay(day: int)
    ensures DayOfWeek(day + 1) == (DayOfWeek(day) + 1) % 7
    ensures DayOfWeek(day + 7) == DayOfWeek(day)
  {
  }

  /** 1970-01-01 was a Thursday; 2024-01-01 (day 19723) a Monday and 2024-01-06 a Saturday. */
  lemma DayOfWeekCalendar()
    ensures DayOfWeek(0) == 3
    ensures DayOfWeek(19723) == 0 && DayOfWeek(19728) == 5
  {
  }

  /** `.dt` works only on a column of timestamps (missing ones allowed). */
  predicate DatetimeLike(col: seq<Cell>) {
    forall i :: 0 <= i < |col| ==> col[i].Time? || col[i].Missing?
  }

  function DayOfWeekCell(c: Cell): Cell {
    if c.Time? then Int(DayOfWeek(c.t.day)) else Missing
  }

  /** `day_of_week >= 5`; a missing weekday compares false. */
  function IsWeekendCell(c: Cell): Cell {
    Flag(c.Int? && c.i >= 5)
  }

  function DayOfWeekColumn(ts: seq<Cell>): (r: seq<Cell>)
    ensures |r| == |ts|
  {
    seq(|ts|, i requires 0 <= i < |ts| => DayOfWeekCell(ts[i]))
  }

  function IsWeekendColumn(dow: seq<Cell>): (r: seq<Cell>)
    ensures |r| == |dow|
  {
    seq(|dow|, i requires 0 <= i < |dow| => IsWeekendCell(dow[i]))
  }

  /** `add_time_features`: `day_of_week` from the `timestamp` column, then `is_weekend` from
      the `day_of_week` column just assigned. */
  function TimeFeatures(t: Table): Outcome {
    if TimestampName !in t.columns then Outcome(t, Raised(KeyError(TimestampName)))
    else if !DatetimeLike(t.columns[TimestampName]) then Outcome(t, Raised(NotDatetimeLike))
    else
      var t1 := Assign(t, DayOfWeekName, DayOfWeekColumn(t.columns[TimestampName]));
      var t2 := Assign(t1, IsWeekendName, IsWeekendColumn(t1.columns[DayOfWeekName]));
      Outcome(t2, Done)
  }

  /** The calendar columns of a timestamp column: the weekday is missing exactly where the
      timestamp is and lies in 0..6 elsewhere, and the weekend flag holds exactly when the
      weekday is 5 or 6. */
  ghost predicate CalendarColumns(ts: seq<Cell>, dow: seq<Cell>, weekend: seq<Cell>) {
    && |dow| == |ts| && |weekend| == |ts|
    && (forall i :: 0 <= i < |ts| ==> (dow[i].Missing? <==> ts[i].Missing?))
    && (forall i :: 0 <= i < |ts| && ts[i].Time? ==> dow[i] == Int(DayOfWeek(ts[i].t.day)) && 0 <= dow[i].i <= 6)
    && (forall i :: 0 <= i < |ts| ==> weekend[i] == Flag(dow[i].Int? && dow[i].i >= 5))
  }

  lemma CalendarColumnsOf(ts: seq<Cell>)
    requires DatetimeLike(ts)
    ensures CalendarColumns(ts, DayOfWeekColumn(ts), IsWeekendColumn(DayOfWeekColumn(ts)))
  {
  }

  /** `add_time_features` keeps a well-formed table well formed and only extends it. */
  lemma TimeFeaturesExtends(t: Table)
    requires WellFormed(t)
    ensures Extends(TimeFeatures(t).table, t)
  {
    if TimestampName in t.columns && DatetimeLike(t.columns[TimestampName]) {
      var ts := t.columns[TimestampName];
      var t1 := Assign(t, DayOfWeekName, DayOfWeekColumn(ts));
      AssignExtends(t, DayOfWeekName, DayOfWeekColumn(ts));
      AssignExtends(t1, IsWeekendName, IsWeekendColumn(t1.columns[DayOfWeekName]));
      ExtendsTransitive(TimeFeatures(t).table, t1, t);
    }
  }

  /** What `add_time_features` does: it raises a KeyError without a `timestamp` column and
      fails on one that is not datetime-like, changing nothing; otherwise it sets the two
      calendar columns and leaves every other column as it was. */
  lemma TimeFeaturesEffect(t: Table)
    requires WellFormed(t)
    ensures TimeFeatures(t).status == Raised(KeyError(TimestampName)) <==> TimestampName !in t.columns
    ensures TimeFeatures(t).status == Raised(NotDatetimeLike) <==>
      TimestampName in t.columns && !DatetimeLike(t.columns[TimestampName])
    ensures TimeFeatures(t).status.Raised? ==> TimeFeatures(t).table == t
    ensures TimeFeatures(t).status == Done ==>
      && DayOfWeekName in TimeFeatures(t).table.columns && IsWeekendName in TimeFeatures(t).table.columns
      && OnlyChanges(TimeFeatures(t).table, t, [DayOfWeekName, IsWeekendName])
      && CalendarColumns(t.columns[TimestampName], TimeFeatures(t).table.columns[DayOfWeekName],
                         TimeFeatures(t).table.columns[IsWeekendName])
  {
    if TimestampName in t.columns && DatetimeLike(t.columns[TimestampName]) {
      var ts := t.columns[TimestampName];
      var t1 := Assign(t, DayOfWeekName, DayOfWeekColumn(ts));
      var u := Assign(t1, IsWeekendName, IsWeekendColumn(t1.columns[DayOfWeekName]));
      assert TimeFeatures(t).table == u;
      assert u.columns[DayOfWeekName] == DayOfWeekColumn(ts);
      CalendarColumnsOf(ts);
    }
  }

  // ---------------------------------------------------------------------------------------
  // rolling windows
  // ---------------------------------------------------------------------------------------

  /** The number a cell holds, if it holds one; `rolling` reads a boolean as 0 or 1. */
  function NumericValue(c: Cell): Option<real> {
    match c
    case Num(x) => Some(x)
    case Int(i) => Some(i as real)
    case Flag(b) => Some(if b then 1.0 else 0.0)
    case _ => None
  }

  /** `rolling` accepts a column of numbers and booleans, missing cells allowed; only
      timestamps make it raise. */
  predicate Numeric(col: seq<Cell>) {
    forall i :: 0 <= i < |col| ==> col[i].Missing? || NumericValue(col[i]).Some?
  }

  /** The numbers in `cells`, when every cell holds one. */
  function Values(cells: seq<Cell>): (r: Option<seq<real>>)
    ensures r.Some? <==> forall i :: 0 <= i < |cells| ==> NumericValue(cells[i]).Some?
    ensures r.Some? ==> |r.value| == |cells| && forall i :: 0 <= i < |cells| ==> r.value[i] == NumericValue(cells[i]).value
  {
    if cells == [] then Some([])
    else
      match (NumericValue(cells[0]), Values(cells[1..]))
      case (Some(x), Some(xs)) =>
        assert forall i :: 1 <= i < |cells| ==> cells[i] == cells[1..][i - 1];
        Some([x] + xs)
      case (None, _) => None
      case (_, None) =>
        assert forall i :: 1 <= i < |cells| ==> cells[i] == cells[1..][i - 1];
        None
  }

  function Sum(xs: seq<real>): real {
    if xs == [] then 0.0 else xs[0] + Sum(xs[1..])
  }

  function Mean(xs: seq<real>): real
    requires |xs| > 0
  {
    Sum(xs) / (|xs| as real)
  }

  /** The sum of squared deviations of `xs` from `m`. */
  function SquaredDeviations(xs: seq<real>, m: real): (r: real)
    ensures r >= 0.0
  {
    if xs == [] then 0.0
    else
      SquareNonNegative(xs[0] - m);
      (xs[0] - m) * (xs[0] - m) + SquaredDeviations(xs[1..], m)
  }

  lemma SquareNonNegative(d: real)
    ensures d * d >= 0.0
  {
    if d < 0.0 {
      assert d * d == (-d) * (-d);
    }
  }

  /** `std()` squared: the sample variance, with `ddof=1`. */
  function SampleVariance(xs: seq<real>): (r: real)
    requires |xs| >= 2
    ensures r >= 0.0
  {
    SquaredDeviations(xs, Mean(xs)) / ((|xs| - 1) as real)
  }

  /** The mean of a window, missing unless every cell holds a number (`min_periods` is
      the window size) and the window is not empty. */
  function CellMean(cells: seq<Cell>): Cell {
    match Values(cells)
    case Some(xs) => if |xs| == 0 then Missing else Num(Mean(xs))
    case None => Missing
  }

  /** The sample variance of a window, missing unless every cell holds a number and there
      are at least two of them. */
  function CellVariance(cells: seq<Cell>): Cell {
    match Values(cells)
    case Some(xs) => if |xs| < 2 then Missing else Num(SampleVariance(xs))
    case None => Missing
  }

  /** `rolling(window=w).mean()` for `w >= 0`: at row `i`, the mean of rows `i-w+1..i`. */
  function RollingMeanColumn(col: seq<Cell>, w: nat): (r: seq<Cell>)
    ensures |r| == |col|
  {
    seq(|col|, i requires 0 <= i < |col| => if w <= i + 1 then CellMean(col[i + 1 - w..i + 1]) else Missing)
  }

  /** `rolling(window=w).std()` for `w >= 0`, squared: at row `i`, the sample variance of
      rows `i-w+1..i`. */
  function RollingVarianceColumn(col: seq<Cell>, w: nat): (r: seq<Cell>)
    ensures |r| == |col|
  {
    seq(|col|, i requires 0 <= i < |col| => if w <= i + 1 then CellVariance(col[i + 1 - w..i + 1]) else Missing)
  }

  /** The cells of lags `w-1`, ..., 1, 0 of `col` at row `i`, oldest first. */
  function LagCells(col: seq<Cell>, w: nat, i: int): (r: seq<Cell>)
    requires 0 <= i < |col|
    ensures |r| == w
  {
    seq(w, m requires 0 <= m < w => Shift(col, w - 1 - m)[i])
  }

  /** The rolling mean over `w >= 1` rows is the mean of the lag-0 to lag-(w-1) columns at
      the same row: the window is aligned with the lags and ends at the current row. */
  lemma RollingMeanIsMeanOfLags(col: seq<Cell>, w: nat, i: int)
    requires w >= 1 && 0 <= i < |col|
    ensures RollingMeanColumn(col, w)[i] == CellMean(LagCells(col, w, i))
    ensures RollingVarianceColumn(col, w)[i] == CellVariance(LagCells(col, w, i))
  {
    var lags := LagCells(col, w, i);
    forall m | 0 <= m < w
      ensures lags[m] == if 0 <= i + 1 - w + m then col[i + 1 - w + m] else Missing
    {
      assert lags[m] == Shift(col, w - 1 - m)[i];
    }
    if w <= i + 1 {
      assert lags == col[i + 1 - w..i + 1];
    } else {
      assert lags[0] == Missing;
      assert Values(lags).None?;
    }
  }

  /** The rolling mean at row `i` is defined exactly when the window is non-empty, fits
      above row `i`, and every cell in it holds a number. */
  lemma RollingMeanDefined(col: seq<Cell>, w: nat, i: int)
    requires 0 <= i < |col|
    ensures RollingMeanColumn(col, w)[i].Num? <==>
      1 <= w <= i + 1 && forall j :: i + 1 - w <= j <= i ==> NumericValue(col[j]).Some?
    ensures RollingMeanColumn(col, w)[i].Num? ==> RollingMeanColumn(col, w)[i].x == Mean(Values(col[i + 1 - w..i + 1]).value)
  {
    if 1 <= w <= i + 1 {
      var win := col[i + 1 - w..i + 1];
      assert RollingMeanColumn(col, w)[i] == CellMean(win);
      if Values(win).Some? {
        forall j | i + 1 - w <= j <= i ensures NumericValue(col[j]).Some? {
          assert col[j] == win[j - (i + 1 - w)];
        }
      } else {
        var k :| 0 <= k < |win| && NumericValue(win[k]).None?;
        assert win[k] == col[k + (i + 1 - w)];
      }
    } else {
      assert RollingMeanColumn(col, w)[i] == Missing by {
        if w == 0 {
          assert Values(col[i + 1..i + 1]) == Some([]);
        }
      }
    }
  }

  /** For windows of two or more rows the rolling std is defined at exactly the rows where
      the rolling mean is; for a window of one row it is never defined. */
  lemma RollingVarianceDefinedWithMean(col: seq<Cell>, w: nat, i: int)
    requires 0 <= i < |col|
    ensures w >= 2 ==> (RollingVarianceColumn(col, w)[i].Num? <==> RollingMeanColumn(col, w)[i].Num?)
    ensures w < 2 ==> RollingVarianceColumn(col, w)[i] == Missing
    ensures RollingVarianceColumn(col, w)[i].Num? ==> RollingVarianceColumn(col, w)[i].x >= 0.0
  {
  }

  /** A window of 2 over 10, 20, 30, a missing cell, then 50: the first row has no full
      window, and windows that touch the missing cell are missing. */
  lemma RollingMeanExample()
    ensures RollingMeanColumn([Num(10.0), Num(20.0), Num(30.0), Missing, Num(50.0)], 2)
         == [Missing, Num(15.0), Num(25.0), Missing, Missing]
  {
    var col := [Num(10.0), Num(20.0), Num(30.0), Missing, Num(50.0)];
    var r := RollingMeanColumn(col, 2);
    assert r[1] == Num(15.0) by {
      assert col[0..2] == [Num(10.0), Num(20.0)];
      PairMean(10.0, 20.0);
    }
    assert r[2] == Num(25.0) by {
      assert col[1..3] == [Num(20.0), Num(30.0)];
      PairMean(20.0, 30.0);
    }
    assert r[3] == Missing by {
      assert col[2..4][1] == Missing;
    }
    assert r[4] == Missing by {
      assert col[3..5][0] == Missing;
    }
    assert r == [Missing, Num(15.0), Num(25.0), Missing, Missing];
  }

  lemma PairMean(a: real, b: real)
    ensures CellMean([Num(a), Num(b)]) == Num((a + b) / 2.0)
  {
    var one: seq<Cell> := [Num(b)];
    var two: seq<Cell> := [Num(a), Num(b)];
    assert one[1..] == [];
    assert NumericValue(one[0]) == Some(b) && Values(one[1..]) == Some([]);
    assert [b] + [] == [b];
    assert Values(one) == Some([b]);
    assert two[1..] == one;
    assert NumericValue(two[0]) == Some(a);
    assert Values(two) == Some([a] + [b]);
    var xs := [a, b];
    assert xs[1..] == [b] && [b][1..] == [];
    assert Sum([b]) == b + Sum([]);
    assert Sum(xs) == a + Sum([b]);
  }

  /** The mean of two cells that hold numbers. */
  lemma PairCellMean(c: Cell, d: Cell)
    requires NumericValue(c).Some? && NumericValue(d).Some?
    ensures CellMean([c, d]) == Num((NumericValue(c).value + NumericValue(d).value) / 2.0)
  {
    var a, b := NumericValue(c).value, NumericValue(d).value;
    var one: seq<Cell> := [d];
    var two: seq<Cell> := [c, d];
    assert one[1..] == [] && Values(one[1..]) == Some([]);
    assert NumericValue(one[0]) == Some(b) && [b] + [] == [b];
    assert Values(one) == Some([b]);
    assert two[1..] == one;
    assert Values(two) == Some([a] + [b]);
    var xs := [a, b];
    assert xs[1..] == [b] && [b][1..] == [];
    assert Sum([b]) == b + Sum([]);
    assert Sum(xs) == a + Sum([b]);
  }

  /** A boolean column such as `is_weekend` is accepted by `rolling`, which reads it as 0
      and 1: a window of 2 over True, False, True gives a missing first row, then 0.5 and
      0.5. */
  lemma FlagRollingExample()
    ensures Numeric([Flag(true), Flag(false), Flag(true)])
    ensures RollingMeanColumn([Flag(true), Flag(false), Flag(true)], 2) == [Missing, Num(0.5), Num(0.5)]
  {
    var col := [Flag(true), Flag(false), Flag(true)];
    var r := RollingMeanColumn(col, 2);
    assert r[1] == Num(0.5) by {
      assert col[0..2] == [Flag(true), Flag(false)];
      PairCellMean(Flag(true), Flag(false));
    }
    assert r[2] == Num(0.5) by {
      assert col[1..3] == [Flag(false), Flag(true)];
      PairCellMean(Flag(false), Flag(true));
    }
    assert r == [Missing, Num(0.5), Num(0.5)];
  }

  // ---------------------------------------------------------------------------------------
  // lag and rolling requests: the bodies of the `for column` / `for lag` loops
  // ---------------------------------------------------------------------------------------

  /** One pass of a loop body: the column it reads, the feature it computes, and the column
      names (the f-strings) it assigns. */
  datatype Request =
    | LagRequest(column: string, lag: int, name: string)
    | RollingRequest(column: string, window: int, meanName: string, stdName: string)

  /** The request the loop body builds: its names are the f-strings of the column and the
      lag or window. */
  predicate Named(req: Request) {
    match req
    case LagRequest(c, k, n) => n == FeatureName(c, Lag, k)
    case RollingRequest(c, w, m, s) =>
      m == FeatureName(c, FeatureKind.RollingMean, w) && s == FeatureName(c, FeatureKind.RollingStd, w)
  }

  function LagRequestOf(column: string, lag: int): (r: Request)
    ensures Named(r)
  {
    LagRequest(column, lag, FeatureName(column, Lag, lag))
  }

  function RollingRequestOf(column: string, w: int): (r: Request)
    ensures Named(r)
  {
    RollingRequest(column, w, FeatureName(column, FeatureKind.RollingMean, w), FeatureName(column, FeatureKind.RollingStd, w))
  }

  /** The columns a request assigns, in assignment order. */
  function Targets(req: Request): seq<string> {
    match req
    case LagRequest(_, _, n) => [n]
    case RollingRequest(_, _, m, s) => [m, s]
  }

  /** The error a request raises on `t`, if any: a KeyError when its column is absent, then
      for a rolling request a negative window, then a column that is not numeric. */
  function Check(t: Table, req: Request): Option<FeatureError> {
    if req.column !in t.columns then Some(KeyError(req.column))
    else
      match req
      case LagRequest(_, _, _) => None
      case RollingRequest(c, w, _, _) =>
        if w < 0 then Some(InvalidWindow)
        else if !Numeric(t.columns[c]) then Some(NotNumeric)
        else None
  }

  /** One loop body: `df[f"{c}_lag_{k}"] = df[c].shift(k)`, or the rolling mean and then
      the rolling std of `df[c]`. */
  function Step(t: Table, req: Request): Outcome {
    match Check(t, req)
    case Some(e) => Outcome(t, Raised(e))
    case None =>
      match req
      case LagRequest(c, k, n) => Outcome(Assign(t, n, Shift(t.columns[c], k)), Done)
      case RollingRequest(c, w, m, s) =>
        var t1 := Assign(t, m, RollingMeanColumn(t.columns[c], w));
        Outcome(Assign(t1, s, RollingVarianceColumn(t1.columns[c], w)), Done)
  }

  /** The first `n` loop bodies, run one after another until one raises. */
  function Run(t: Table, reqs: seq<Request>, n: nat): Outcome
    requires n <= |reqs|
  {
    if n == 0 then Outcome(t, Done)
    else
      var prev := Run(t, reqs, n - 1);
      if prev.status.Raised? then prev else Step(prev.table, reqs[n - 1])
  }

  /** A loop body keeps a well-formed table well formed: it only adds or overwrites columns,
      all as long as the table. */
  lemma StepExtends(t: Table, req: Request)
    requires WellFormed(t)
    ensures Extends(Step(t, req).table, t)
  {
    if Check(t, req).None? {
      match req
      case LagRequest(c, k, n) =>
        AssignExtends(t, n, Shift(t.columns[c], k));
      case RollingRequest(c, w, m, s) =>
        var t1 := Assign(t, m, RollingMeanColumn(t.columns[c], w));
        AssignExtends(t, m, RollingMeanColumn(t.columns[c], w));
        AssignExtends(t1, s, RollingVarianceColumn(t1.columns[c], w));
        ExtendsTransitive(Step(t, req).table, t1, t);
    }
  }

  /** So does a run of loop bodies, whether it completes or raises. */
  lemma {:induction false} RunExtends(t: Table, reqs: seq<Request>, n: nat)
    requires WellFormed(t) && n <= |reqs|
    ensures Extends(Run(t, reqs, n).table, t)
  {
    if n > 0 {
      RunExtends(t, reqs, n - 1);
      var prev := Run(t, reqs, n - 1);
      if prev.status == Done {
        StepExtends(prev.table, reqs[n - 1]);
        ExtendsTransitive(Run(t, reqs, n).table, prev.table, t);
      }
    } else {
      assert Run(t, reqs, n).table == t;
    }
  }

  /** Every column name the first `n` requests assign, request by request. */
  function AllTargets(reqs: seq<Request>, n: nat): seq<string>
    requires n <= |reqs|
  {
    if n == 0 then [] else AllTargets(reqs, n - 1) + Targets(reqs[n - 1])
  }

  lemma {:induction false} AllTargetsMember(reqs: seq<Request>, n: nat, c: string)
    requires n <= |reqs|
    ensures c in AllTargets(reqs, n) <==> exists j :: 0 <= j < n && c in Targets(reqs[j])
  {
    if n > 0 {
      AllTargetsMember(reqs, n - 1, c);
    }
  }

  /** No request reads a column that a request of the same call assigns. */
  ghost predicate NoSourceIsTarget(reqs: seq<Request>) {
    forall i, j :: 0 <= i < |reqs| && 0 <= j < |reqs| ==> reqs[i].column !in Targets(reqs[j])
  }

  /** A column name belongs to the targets of one request only, and a rolling request's two
      names differ. */
  ghost predicate TargetsUnique(reqs: seq<Request>) {
    && (forall i, j, c :: 0 <= i < |reqs| && 0 <= j < |reqs| && c in Targets(reqs[i]) && c in Targets(reqs[j]) ==> reqs[i] == reqs[j])
    && (forall i :: 0 <= i < |reqs| && reqs[i].RollingRequest? ==> reqs[i].meanName != reqs[i].stdName)
  }

  /** The requests of one call can be run in any state: none reads another's output and no
      two write the same column. */
  ghost predicate Independent(reqs: seq<Request>) {
    NoSourceIsTarget(reqs) && TargetsUnique(reqs)
  }

  lemma SourceNotAssigned(reqs: seq<Request>, n: nat, i: int)
    requires NoSourceIsTarget(reqs) && n <= |reqs| && 0 <= i < |reqs|
    ensures reqs[i].column !in AllTargets(reqs, n)
  {
    AllTargetsMember(reqs, n, reqs[i].column);
  }

  /** The columns `req` assigns hold in `u` what it computes from `t`'s column. */
  ghost predicate TargetsHold(u: Table, t: Table, req: Request) {
    req.column in t.columns &&
    match req
    case LagRequest(c, k, n) => n in u.columns && u.columns[n] == Shift(t.columns[c], k)
    case RollingRequest(c, w, m, s) =>
      w >= 0 && m in u.columns && s in u.columns
      && u.columns[m] == RollingMeanColumn(t.columns[c], w)
      && u.columns[s] == RollingVarianceColumn(t.columns[c], w)
  }

  /** `u`'s copy of the request's column agrees with the original table `t`. */
  ghost predicate SourceAgrees(u: Table, t: Table, req: Request) {
    && (req.column in u.columns <==> req.column in t.columns)
    && (req.column in t.columns ==> u.columns[req.column] == t.columns[req.column])
  }

  /** One loop body run on a table whose copy of its column agrees with the original table
      raises what it would raise on the original, and changes nothing when it raises. */
  lemma StepStatus(u: Table, t: Table, req: Request)
    requires SourceAgrees(u, t, req)
    ensures Check(u, req) == Check(t, req)
    ensures Step(u, req).status == if Check(t, req).None? then Done else Raised(Check(t, req).value)
    ensures Step(u, req).status.Raised? ==> Step(u, req).table == u
  {
  }

  /** A loop body touches only its own target columns. */
  lemma StepOnlyChanges(u: Table, req: Request)
    ensures OnlyChanges(Step(u, req).table, u, Targets(req))
  {
  }

  /** On success the targets of a loop body hold what it computes from the original column. */
  lemma StepTargetsHold(u: Table, t: Table, req: Request)
    requires SourceAgrees(u, t, req) && req.column !in Targets(req)
    requires req.RollingRequest? ==> req.meanName != req.stdName
    requires Check(u, req).None?
    ensures TargetsHold(Step(u, req).table, t, req)
  {
    match req
    case LagRequest(c, k, n) =>
    case RollingRequest(c, w, m, s) =>
      var t1 := Assign(u, m, RollingMeanColumn(u.columns[c], w));
      assert t1.columns[c] == u.columns[c];
  }

  /** Assignments to other columns keep what a request's targets hold. */
  lemma TargetsStillHold(prev: Table, next: Table, t: Table, r: Request, last: Request)
    requires TargetsHold(prev, t, r)
    requires OnlyChanges(next, prev, Targets(last))
    requires TargetsHold(next, t, last)
    requires forall c :: c in Targets(r) && c in Targets(last) ==> r == last
    ensures TargetsHold(next, t, r)
  {
  }

  /** A loop body whose target columns already hold what it computes leaves the table as it is. */
  lemma StepOnSettled(u: Table, t: Table, req: Request)
    requires SourceAgrees(u, t, req)
    requires Check(u, req).None? && TargetsHold(u, t, req)
    ensures Step(u, req) == Outcome(u, Done)
  {
    match req
    case LagRequest(c, k, n) =>
      AssignSame(u, n);
    case RollingRequest(c, w, m, s) =>
      AssignSame(u, m);
      AssignSame(u, s);
  }

  /** Every one of the first `n` loop bodies passes its checks on `t`. */
  ghost predicate AllPass(t: Table, reqs: seq<Request>, n: nat)
    requires n <= |reqs|
  {
    forall j :: 0 <= j < n ==> Check(t, reqs[j]).None?
  }

  lemma AllPassNext(t: Table, reqs: seq<Request>, n: nat)
    requires 0 < n <= |reqs|
    ensures AllPass(t, reqs, n) <==> AllPass(t, reqs, n - 1) && Check(t, reqs[n - 1]).None?
  {
  }

  /** One more loop body: it runs only if the ones before it completed. */
  lemma RunNext(t: Table, reqs: seq<Request>, n: nat)
    requires 0 < n <= |reqs|
    ensures Run(t, reqs, n) == if Run(t, reqs, n - 1).status.Raised? then Run(t, reqs, n - 1)
                               else Step(Run(t, reqs, n - 1).table, reqs[n - 1])
  {
  }

  /** Once a loop body raises, the remaining ones never run. */
  lemma {:induction false} RaisedStays(t: Table, reqs: seq<Request>, n: nat, m: nat)
    requires n <= m <= |reqs| && Run(t, reqs, n).status.Raised?
    ensures Run(t, reqs, m) == Run(t, reqs, n)
    decreases m
  {
    if m > n {
      RaisedStays(t, reqs, n, m - 1);
      RunNext(t, reqs, m);
      assert Run(t, reqs, m) == Run(t, reqs, m - 1);
    } else {
      assert m == n;
    }
  }

  lemma OnlyChangesCompose(v: Table, u: Table, t: Table, a: seq<string>, b: seq<string>)
    requires OnlyChanges(v, u, b) && OnlyChanges(u, t, a)
    ensures OnlyChanges(v, t, a + b)
  {
  }

  /** A run changes only the columns its loop bodies assign: every other column is kept
      as it was, and every new column is a target. */
  lemma {:induction false} RunOnlyChanges(t: Table, reqs: seq<Request>, n: nat)
    requires n <= |reqs|
    ensures OnlyChanges(Run(t, reqs, n).table, t, AllTargets(reqs, n))
  {
    if n > 0 {
      RunOnlyChanges(t, reqs, n - 1);
      RunNext(t, reqs, n);
      var prev := Run(t, reqs, n - 1);
      if prev.status == Done {
        StepOnlyChanges(prev.table, reqs[n - 1]);
        OnlyChangesCompose(Step(prev.table, reqs[n - 1]).table, prev.table, t, AllTargets(reqs, n - 1), Targets(reqs[n - 1]));
      }
    }
  }

  /** A column no loop body assigns keeps its original value throughout a run. */
  lemma SourceKept(t: Table, reqs: seq<Request>, n: nat, req: Request)
    requires n <= |reqs| && req.column !in AllTargets(reqs, n)
    ensures SourceAgrees(Run(t, reqs, n).table, t, req)
  {
    RunOnlyChanges(t, reqs, n);
  }

  /** What loop body `n - 1` reports when it runs, without the table it builds. */
  lemma NextStatus(t: Table, reqs: seq<Request>, n: nat)
    requires NoSourceIsTarget(reqs) && 0 < n <= |reqs|
    requires Run(t, reqs, n - 1).status == Done
    ensures Run(t, reqs, n).status == if Check(t, reqs[n - 1]).None? then Done else Raised(Check(t, reqs[n - 1]).value)
    ensures Run(t, reqs, n).status.Raised? ==> Run(t, reqs, n).table == Run(t, reqs, n - 1).table
  {
    NextStep(t, reqs, n);
  }

  /** Loop body `n - 1`, once the bodies before it have completed, raises what it would raise
      on the original table. */
  lemma NextStep(t: Table, reqs: seq<Request>, n: nat)
    requires NoSourceIsTarget(reqs) && 0 < n <= |reqs|
    requires Run(t, reqs, n - 1).status == Done
    ensures Run(t, reqs, n) == Step(Run(t, reqs, n - 1).table, reqs[n - 1])
    ensures Run(t, reqs, n).status == if Check(t, reqs[n - 1]).None? then Done else Raised(Check(t, reqs[n - 1]).value)
    ensures Run(t, reqs, n).status.Raised? ==> Run(t, reqs, n).table == Run(t, reqs, n - 1).table
    ensures SourceAgrees(Run(t, reqs, n - 1).table, t, reqs[n - 1])
  {
    RunNext(t, reqs, n);
    SourceNotAssigned(reqs, n - 1, n - 1);
    SourceKept(t, reqs, n - 1, reqs[n - 1]);
    StepStatus(Run(t, reqs, n - 1).table, t, reqs[n - 1]);
  }

  /** When no loop body reads a column another one assigns, the run completes exactly when
      every check passes on the original table. */
  lemma {:induction false} RunDone(t: Table, reqs: seq<Request>, n: nat)
    requires NoSourceIsTarget(reqs) && n <= |reqs|
    ensures Run(t, reqs, n).status == Done <==> AllPass(t, reqs, n)
  {
    if n > 0 {
      RunDone(t, reqs, n - 1);
      DoneStep(t, reqs, n);
    }
  }

  /** The inductive step of `RunDone`. */
  lemma DoneStep(t: Table, reqs: seq<Request>, n: nat)
    requires NoSourceIsTarget(reqs) && 0 < n <= |reqs|
    requires Run(t, reqs, n - 1).status == Done <==> AllPass(t, reqs, n - 1)
    ensures Run(t, reqs, n).status == Done <==> AllPass(t, reqs, n)
  {
    AllPassNext(t, reqs, n);
    if Run(t, reqs, n - 1).status == Done {
      NextStatus(t, reqs, n);
    } else {
      RunNext(t, reqs, n);
    }
  }

  /** `NextStatus` for the loop body at index `i`. */
  lemma StatusAfter(t: Table, reqs: seq<Request>, i: nat)
    requires NoSourceIsTarget(reqs) && i < |reqs|
    requires Run(t, reqs, i).status == Done
    ensures Run(t, reqs, i + 1).status == if Check(t, reqs[i]).None? then Done else Raised(Check(t, reqs[i]).value)
    ensures Run(t, reqs, i + 1).status.Raised? ==> Run(t, reqs, i + 1).table == Run(t, reqs, i).table
  {
    NextStatus(t, reqs, i + 1);
  }

  /** Otherwise it raises the error of the first loop body whose check fails on the original
      table, keeping the columns the bodies before it assigned. */
  lemma RunRaisedAt(t: Table, reqs: seq<Request>, n: nat, i: nat)
    requires NoSourceIsTarget(reqs) && i < n <= |reqs|
    requires AllPass(t, reqs, i) && Check(t, reqs[i]).Some?
    ensures Run(t, reqs, n) == Outcome(Run(t, reqs, i).table, Raised(Check(t, reqs[i]).value))
  {
    var o := Run(t, reqs, i + 1);
    assert Run(t, reqs, i).status == Done by {
      RunDone(t, reqs, i);
    }
    assert o.status == Raised(Check(t, reqs[i]).value) && o.table == Run(t, reqs, i).table by {
      StatusAfter(t, reqs, i);
    }
    assert Run(t, reqs, n) == o by {
      RaisedStays(t, reqs, i + 1, n);
    }
    assert o == Outcome(o.table, o.status);
  }

  /** Targets that hold before loop body `n - 1` still hold after it. */
  lemma KeepHolding(t: Table, reqs: seq<Request>, n: nat, i: nat)
    requires Independent(reqs) && i < n <= |reqs|
    requires TargetsHold(Run(t, reqs, n - 1).table, t, reqs[i])
    ensures TargetsHold(Run(t, reqs, n).table, t, reqs[i])
  {
    var prev := Run(t, reqs, n - 1);
    var last := reqs[n - 1];
    if prev.status == Done {
      NextStep(t, reqs, n);
      if Check(t, last).None? {
        StepStatus(prev.table, t, last);
        StepTargetsHold(prev.table, t, last);
        StepOnlyChanges(prev.table, last);
        TargetsStillHold(prev.table, Step(prev.table, last).table, t, reqs[i], last);
      }
    } else {
      RunNext(t, reqs, n);
    }
  }

  /** A loop body that passes its checks holds its targets right after it runs. */
  lemma LastHolds(t: Table, reqs: seq<Request>, n: nat)
    requires Independent(reqs) && 0 < n <= |reqs| && AllPass(t, reqs, n)
    ensures TargetsHold(Run(t, reqs, n).table, t, reqs[n - 1])
  {
    RunDone(t, reqs, n - 1);
    NextStep(t, reqs, n);
    var prev := Run(t, reqs, n - 1);
    StepStatus(prev.table, t, reqs[n - 1]);
    StepTargetsHold(prev.table, t, reqs[n - 1]);
  }

  /** Each loop body that ran without raising holds, at the end of the run, the values it
      computes from the original table. */
  lemma {:induction false} RunTargetsHold(t: Table, reqs: seq<Request>, n: nat, i: nat)
    requires Independent(reqs) && i < n <= |reqs| && AllPass(t, reqs, i + 1)
    ensures TargetsHold(Run(t, reqs, n).table, t, reqs[i])
    decreases n
  {
    if i == n - 1 {
      LastHolds(t, reqs, n);
    } else {
      RunTargetsHold(t, reqs, n - 1, i);
      KeepHolding(t, reqs, n, i);
    }
  }

  /** Rerunning loop body `i` on the result of the whole run raises what it raised the
      first time, or changes nothing. */
  lemma RerunStep(t: Table, reqs: seq<Request>, i: nat)
    requires Independent(reqs) && i < |reqs|
    requires Run(t, reqs, i).status == Done
    ensures Step(Run(t, reqs, |reqs|).table, reqs[i]) == Outcome(Run(t, reqs, |reqs|).table, Run(t, reqs, i + 1).status)
  {
    var u := Run(t, reqs, |reqs|).table;
    var req := reqs[i];
    NextStatus(t, reqs, i + 1);
    SourceNotAssigned(reqs, |reqs|, i);
    SourceKept(t, reqs, |reqs|, req);
    StepStatus(u, t, req);
    if Check(t, req).None? {
      RunDone(t, reqs, i);
      RunTargetsHold(t, reqs, |reqs|, i);
      StepOnSettled(u, t, req);
    }
  }

  /** Running the same loop bodies again over their own result repeats, body by body, the
      statuses of the first run and never changes the table. */
  lemma {:induction false} Rerun(t: Table, reqs: seq<Request>, n: nat)
    requires Independent(reqs) && n <= |reqs|
    ensures Run(Run(t, reqs, |reqs|).table, reqs, n) == Outcome(Run(t, reqs, |reqs|).table, Run(t, reqs, n).status)
  {
    if n > 0 {
      Rerun(t, reqs, n - 1);
      RerunNext(t, Run(t, reqs, |reqs|).table, reqs, n);
    }
  }

  /** The inductive step of `Rerun`, on the result `u` of the whole run. */
  lemma RerunNext(t: Table, u: Table, reqs: seq<Request>, n: nat)
    requires Independent(reqs) && 0 < n <= |reqs| && u == Run(t, reqs, |reqs|).table
    requires Run(u, reqs, n - 1) == Outcome(u, Run(t, reqs, n - 1).status)
    ensures Run(u, reqs, n) == Outcome(u, Run(t, reqs, n).status)
  {
    if Run(t, reqs, n - 1).status == Done {
      RerunPassed(t, reqs, n);
    } else {
      RerunRaised(t, u, reqs, n);
    }
  }

  /** The inductive step of `Rerun` after a body that passed in the first run. */
  lemma RerunPassed(t: Table, reqs: seq<Request>, n: nat)
    requires Independent(reqs) && 0 < n <= |reqs|
    requires Run(t, reqs, n - 1).status == Done
    requires Run(Run(t, reqs, |reqs|).table, reqs, n - 1) == Outcome(Run(t, reqs, |reqs|).table, Done)
    ensures Run(Run(t, reqs, |reqs|).table, reqs, n) == Outcome(Run(t, reqs, |reqs|).table, Run(t, reqs, n).status)
  {
    var u := Run(t, reqs, |reqs|).table;
    RerunStep(t, reqs, n - 1);
    assert Run(t, reqs, n - 1 + 1) == Run(t, reqs, n);
    SettledStep(u, reqs, n, Run(t, reqs, n).status);
  }

  /** A body that leaves a settled table as it is, reporting `status`, ends the run there. */
  lemma SettledStep(u: Table, reqs: seq<Request>, n: nat, status: Status)
    requires 0 < n <= |reqs|
    requires Run(u, reqs, n - 1) == Outcome(u, Done)
    requires Step(u, reqs[n - 1]) == Outcome(u, status)
    ensures Run(u, reqs, n) == Outcome(u, status)
  {
    RunNext(u, reqs, n);
  }

  /** The inductive step of `Rerun` after the first run has raised. */
  lemma RerunRaised(t: Table, u: Table, reqs: seq<Request>, n: nat)
    requires 0 < n <= |reqs| && Run(t, reqs, n - 1).status.Raised?
    requires Run(u, reqs, n - 1) == Outcome(u, Run(t, reqs, n - 1).status)
    ensures Run(u, reqs, n) == Outcome(u, Run(t, reqs, n).status)
  {
    RunNext(u, reqs, n);
    RunNext(t, reqs, n);
  }

  /** No two loop bodies are the same. */
  ghost predicate DistinctRequests(reqs: seq<Request>) {
    forall i, j :: 0 <= i < j < |reqs| ==> reqs[i] != reqs[j]
  }

  /** A loop body that passes its checks and whose targets are new, distinct columns appends
      them in assignment order. */
  lemma StepAppends(u: Table, req: Request)
    requires Check(u, req).None?
    requires forall n :: n in Targets(req) ==> n !in u.columns
    requires req.RollingRequest? ==> req.meanName != req.stdName
    ensures Step(u, req).table.names == u.names + Targets(req)
  {
    match req
    case LagRequest(c, k, n) =>
    case RollingRequest(c, w, m, s) =>
      var t1 := Assign(u, m, RollingMeanColumn(u.columns[c], w));
      assert t1.names == u.names + [m];
      assert Step(u, req).table == Assign(t1, s, RollingVarianceColumn(t1.columns[c], w));
  }

  /** When every target is a new column and no loop body repeats, a run that completes
      appends exactly the targets, in loop order, after the existing columns. */
  lemma {:induction false} RunNames(t: Table, reqs: seq<Request>, n: nat)
    requires TargetsUnique(reqs) && DistinctRequests(reqs) && n <= |reqs|
    requires forall c :: c in AllTargets(reqs, n) ==> c !in t.columns
    ensures Run(t, reqs, n).status == Done ==> Run(t, reqs, n).table.names == t.names + AllTargets(reqs, n)
  {
    if n > 0 && Run(t, reqs, n).status == Done {
      assert Run(t, reqs, n - 1).status == Done by {
        RunNext(t, reqs, n);
      }
      assert AllTargets(reqs, n) == AllTargets(reqs, n - 1) + Targets(reqs[n - 1]);
      RunNames(t, reqs, n - 1);
      NamesStep(t, reqs, n);
    }
  }

  /** The inductive step of `RunNames`. */
  lemma NamesStep(t: Table, reqs: seq<Request>, n: nat)
    requires TargetsUnique(reqs) && DistinctRequests(reqs) && 0 < n <= |reqs|
    requires forall c :: c in AllTargets(reqs, n) ==> c !in t.columns
    requires Run(t, reqs, n).status == Done && Run(t, reqs, n - 1).status == Done
    requires Run(t, reqs, n - 1).table.names == t.names + AllTargets(reqs, n - 1)
    ensures Run(t, reqs, n).table.names == t.names + AllTargets(reqs, n)
  {
    var prev := Run(t, reqs, n - 1).table;
    var last := reqs[n - 1];
    assert Run(t, reqs, n) == Step(prev, last) by {
      RunNext(t, reqs, n);
    }
    forall c | c in Targets(last) ensures c !in prev.columns {
      FreshTarget(t, reqs, n, c);
    }
    StepAppends(prev, last);
  }

  /** A column loop body `n - 1` assigns is not yet in the table it runs on. */
  lemma FreshTarget(t: Table, reqs: seq<Request>, n: nat, c: string)
    requires TargetsUnique(reqs) && DistinctRequests(reqs) && 0 < n <= |reqs|
    requires forall c :: c in AllTargets(reqs, n) ==> c !in t.columns
    requires c in Targets(reqs[n - 1])
    ensures c !in Run(t, reqs, n - 1).table.columns
  {
    RunOnlyChanges(t, reqs, n - 1);
    AllTargetsMember(reqs, n - 1, c);
    assert AllTargets(reqs, n) == AllTargets(reqs, n - 1) + Targets(reqs[n - 1]);
  }

  /** A feature name determines the request that assigns it. */
  lemma TargetClash(r1: Request, r2: Request, n: string)
    requires Named(r1) && Named(r2) && n in Targets(r1) && n in Targets(r2)
    ensures r1 == r2
  {
    var kind1 := if r1.LagRequest? then Lag else if n == r1.meanName then FeatureKind.RollingMean else FeatureKind.RollingStd;
    var kind2 := if r2.LagRequest? then Lag else if n == r2.meanName then FeatureKind.RollingMean else FeatureKind.RollingStd;
    var x1 := if r1.LagRequest? then r1.lag else r1.window;
    var x2 := if r2.LagRequest? then r2.lag else r2.window;
    assert n == FeatureName(r1.column, kind1, x1) && n == FeatureName(r2.column, kind2, x2);
    FeatureNameInjective(r1.column, kind1, x1, r2.column, kind2, x2);
  }

  /** Requests built by the loop bodies never share a target, and a rolling request's two
      names differ. */
  lemma NamedUnique(reqs: seq<Request>)
    requires forall k :: 0 <= k < |reqs| ==> Named(reqs[k])
    ensures TargetsUnique(reqs)
  {
    forall i, j, c | 0 <= i < |reqs| && 0 <= j < |reqs| && c in Targets(reqs[i]) && c in Targets(reqs[j])
      ensures reqs[i] == reqs[j]
    {
      TargetClash(reqs[i], reqs[j], c);
    }
    forall i | 0 <= i < |reqs| && reqs[i].RollingRequest? ensures reqs[i].meanName != reqs[i].stdName {
      var r := reqs[i];
      assert |r.meanName| == |r.column| + 14 + |IntToString(r.window)|;
      assert |r.stdName| == |r.column| + 13 + |IntToString(r.window)|;
    }
  }

  /** Feature names contain an underscore, so requests built on columns without one never
      read a column that a request assigns. */
  lemma NoUnderscoreIndependent(reqs: seq<Request>)
    requires forall k :: 0 <= k < |reqs| ==> Named(reqs[k]) && '_' !in reqs[k].column
    ensures Independent(reqs)
  {
    NamedUnique(reqs);
    forall i, j | 0 <= i < |reqs| && 0 <= j < |reqs| ensures reqs[i].column !in Targets(reqs[j]) {
      var r := reqs[j];
      match r
      case LagRequest(c, k, n) =>
        FeatureNameShape(c, Lag, k);
      case RollingRequest(c, w, m, sd) =>
        FeatureNameShape(c, FeatureKind.RollingMean, w);
        FeatureNameShape(c, FeatureKind.RollingStd, w);
    }
  }

  /** A run depends only on the requests it reaches. */
  lemma {:induction false} RunPrefix(t: Table, reqs: seq<Request>, other: seq<Request>, n: nat)
    requires n <= |reqs| && n <= |other| && reqs[..n] == other[..n]
    ensures Run(t, reqs, n) == Run(t, other, n)
  {
    if n > 0 {
      assert reqs[..n - 1] == reqs[..n][..n - 1] && other[..n - 1] == other[..n][..n - 1];
      assert reqs[n - 1] == reqs[..n][n - 1] && other[n - 1] == other[..n][n - 1];
      RunPrefix(t, reqs, other, n - 1);
    }
  }

  /** A loop body never removes a column. */
  lemma StepKeepsColumn(u: Table, req: Request, c: string)
    requires c in u.columns
    ensures c in Step(u, req).table.columns
  {
  }

  /** Nor does a run of them. */
  lemma {:induction false} RunKeepsColumn(t: Table, reqs: seq<Request>, n: nat, c: string)
    requires n <= |reqs| && c in t.columns
    ensures c in Run(t, reqs, n).table.columns
  {
    if n > 0 {
      RunKeepsColumn(t, reqs, n - 1, c);
      var prev := Run(t, reqs, n - 1);
      if prev.status == Done {
        StepKeepsColumn(prev.table, reqs[n - 1], c);
      }
    }
  }

  /** A run that completes has created every column its requests name. */
  lemma {:induction false} RunTargetPresent(t: Table, reqs: seq<Request>, n: nat, k: int, c: string)
    requires 0 <= k < n <= |reqs| && Run(t, reqs, n).status == Done && c in Targets(reqs[k])
    ensures c in Run(t, reqs, n).table.columns
  {
    var prev := Run(t, reqs, n - 1);
    assert prev.status == Done;
    if k < n - 1 {
      RunTargetPresent(t, reqs, n - 1, k, c);
      StepKeepsColumn(prev.table, reqs[n - 1], c);
    }
  }

  // ---------------------------------------------------------------------------------------
  // add_lag_features
  // ---------------------------------------------------------------------------------------

  /** The loop bodies of `add_lag_features(columns, lag_periods)`: one per (column, lag),
      column by column and, within a column, lag by lag. */
  function LagRequests(columns: seq<string>, lags: seq<int>): (r: seq<Request>)
    ensures |r| == RowStart(|columns|, |lags|)
  {
    if columns == [] then []
    else LagRequests(columns[..|columns| - 1], lags) + ColumnLagRequests(columns[|columns| - 1], lags)
  }

  /** Every lag request is for one of the columns and one of the lags. */
  lemma {:induction false} LagRequestsShape(columns: seq<string>, lags: seq<int>)
    ensures forall k :: 0 <= k < |LagRequests(columns, lags)| ==>
      var r := LagRequests(columns, lags)[k]; r.LagRequest? && r.column in columns && r.lag in lags
    decreases |columns|
  {
    if columns != [] {
      var init := columns[..|columns| - 1];
      LagRequestsShape(init, lags);
      var r := LagRequests(columns, lags);
      var a := LagRequests(init, lags);
      var b := ColumnLagRequests(columns[|columns| - 1], lags);
      assert r == a + b;
      forall k | 0 <= k < |r| ensures r[k].LagRequest? && r[k].column in columns && r[k].lag in lags {
        if k < |a| {
          assert r[k] == a[k] && a[k].column in init;
        } else {
          assert r[k] == b[k - |a|];
        }
      }
    }
  }

  function ColumnLagRequests(column: string, lags: seq<int>): (r: seq<Request>)
    ensures |r| == |lags|
    ensures forall j {:trigger r[j]} :: 0 <= j < |lags| ==> r[j] == LagRequestOf(column, lags[j])
  {
    seq(|lags|, j requires 0 <= j < |lags| => LagRequestOf(column, lags[j]))
  }

  /** Every lag request carries the f-string name of its column and lag. */
  lemma {:induction false} LagRequestsNamed(columns: seq<string>, lags: seq<int>)
    ensures forall k :: 0 <= k < |LagRequests(columns, lags)| ==> Named(LagRequests(columns, lags)[k])
    decreases |columns|
  {
    if columns != [] {
      var init := columns[..|columns| - 1];
      LagRequestsNamed(init, lags);
      var r := LagRequests(columns, lags);
      var a := LagRequests(init, lags);
      var b := ColumnLagRequests(columns[|columns| - 1], lags);
      assert r == a + b;
      forall k | 0 <= k < |r| ensures Named(r[k]) {
        if k < |a| {
          assert r[k] == a[k];
        } else {
          assert r[k] == b[k - |a|];
        }
      }
    }
  }

  /** The request for column `i` and lag `j` comes at position `i * |lags| + j`. */
  lemma LagRequestsAt(columns: seq<string>, lags: seq<int>, i: nat, j: nat)
    requires i < |columns| && j < |lags|
    ensures 0 <= i * |lags| + j < |LagRequests(columns, lags)|
    ensures LagRequests(columns, lags)[i * |lags| + j] == LagRequestOf(columns[i], lags[j])
  {
    LagRequestsEntry(columns, lags, i, j);
    RowStartProduct(i, |lags|);
  }

  /** Every (column, lag) pair has its request. */
  lemma LagRequestsHas(columns: seq<string>, lags: seq<int>, i: nat, j: nat)
    requires i < |columns| && j < |lags|
    ensures exists k :: 0 <= k < |LagRequests(columns, lags)| && LagRequests(columns, lags)[k] == LagRequestOf(columns[i], lags[j])
  {
    LagRequestsEntry(columns, lags, i, j);
  }

  /** The requests for the first `i` columns come first. */
  lemma {:induction false} LagRequestsPrefix(columns: seq<string>, lags: seq<int>, i: nat)
    requires i <= |columns|
    ensures RowStart(i, |lags|) <= |LagRequests(columns, lags)|
    ensures LagRequests(columns, lags)[..RowStart(i, |lags|)] == LagRequests(columns[..i], lags)
    decreases |columns|
  {
    if i < |columns| {
      var init := columns[..|columns| - 1];
      var a := LagRequests(init, lags);
      LagRequestsPrefix(init, lags, i);
      assert init[..i] == columns[..i];
      assert LagRequests(columns, lags) == a + ColumnLagRequests(columns[|columns| - 1], lags);
      assert (a + ColumnLagRequests(columns[|columns| - 1], lags))[..RowStart(i, |lags|)] == a[..RowStart(i, |lags|)];
    } else {
      assert columns[..i] == columns;
    }
  }

  /** What `add_lag_features(columns, lag_periods)` does to a table. */
  function LagFeatures(t: Table, columns: seq<string>, lags: seq<int>): Outcome {
    var reqs := LagRequests(columns, lags);
    Run(t, reqs, |reqs|)
  }

  /** It completes exactly when every requested column exists (or there are no lags). */
  lemma LagFeaturesDone(t: Table, columns: seq<string>, lags: seq<int>)
    requires NoSourceIsTarget(LagRequests(columns, lags))
    ensures LagFeatures(t, columns, lags).status == Done <==>
      |lags| == 0 || forall c :: c in columns ==> c in t.columns
  {
    var reqs := LagRequests(columns, lags);
    LagRequestsShape(columns, lags);
    RunDone(t, reqs, |reqs|);
    if |lags| > 0 && AllPass(t, reqs, |reqs|) {
      forall c | c in columns ensures c in t.columns {
        var i :| 0 <= i < |columns| && columns[i] == c;
        LagRequestsHas(columns, lags, i, 0);
        var k :| 0 <= k < |reqs| && reqs[k] == LagRequestOf(c, lags[0]);
        assert Check(t, reqs[k]).None?;
      }
    }
  }

  /** Otherwise it raises a KeyError for the first missing column, after completing the
      columns before it. */
  lemma LagFeaturesRaised(t: Table, columns: seq<string>, lags: seq<int>, i: nat)
    requires NoSourceIsTarget(LagRequests(columns, lags))
    requires |lags| > 0 && i < |columns| && columns[i] !in t.columns
    requires forall c :: c in columns[..i] ==> c in t.columns
    ensures LagFeatures(t, columns, lags) == Outcome(LagFeatures(t, columns[..i], lags).table, Raised(KeyError(columns[i])))
  {
    var reqs := LagRequests(columns, lags);
    var start := RowStart(i, |lags|);
    LagRequestsEntry(columns, lags, i, 0);
    LagCheckMissing(t, reqs[start], columns[i], lags[0]);
    LagPassBefore(t, columns, lags, i);
    RunRaisedAt(t, reqs, |reqs|, start);
    LagRequestsPrefix(columns, lags, i);
    RunPrefix(t, reqs, LagRequests(columns[..i], lags), start);
  }

  /** The lag request of a missing column raises a KeyError for it. */
  lemma LagCheckMissing(t: Table, r: Request, c: string, l: int)
    requires r == LagRequestOf(c, l) && c !in t.columns
    ensures Check(t, r) == Some(KeyError(c))
  {
  }

  /** The lag requests of columns that all exist pass their checks. */
  lemma LagPassBefore(t: Table, columns: seq<string>, lags: seq<int>, i: nat)
    requires i <= |columns| && forall c :: c in columns[..i] ==> c in t.columns
    ensures RowStart(i, |lags|) <= |LagRequests(columns, lags)|
    ensures AllPass(t, LagRequests(columns, lags), RowStart(i, |lags|))
  {
    var reqs := LagRequests(columns, lags);
    var before := LagRequests(columns[..i], lags);
    LagRequestsPrefix(columns, lags, i);
    LagRequestsShape(columns[..i], lags);
    forall k | 0 <= k < RowStart(i, |lags|) ensures Check(t, reqs[k]).None? {
      assert reqs[k] == before[k] && before[k].column in columns[..i];
    }
  }

  /** On completion, the column named `f"{c}_lag_{k}"` holds column `c` of the original table
      shifted by `k` rows: row `r` holds row `r - k`, and the first `k` rows are missing. */
  lemma LagFeaturesAlignment(t: Table, columns: seq<string>, lags: seq<int>, i: int, j: int)
    requires Independent(LagRequests(columns, lags))
    requires LagFeatures(t, columns, lags).status == Done
    requires 0 <= i < |columns| && 0 <= j < |lags|
    ensures columns[i] in t.columns
    ensures FeatureName(columns[i], Lag, lags[j]) in LagFeatures(t, columns, lags).table.columns
    ensures LagFeatures(t, columns, lags).table.columns[FeatureName(columns[i], Lag, lags[j])]
         == Shift(t.columns[columns[i]], lags[j])
  {
    var reqs := LagRequests(columns, lags);
    LagRequestsHas(columns, lags, i, j);
    var k :| 0 <= k < |reqs| && reqs[k] == LagRequestOf(columns[i], lags[j]);
    RunDone(t, reqs, |reqs|);
    RunTargetsHold(t, reqs, |reqs|, k);
  }

  /** Requests that assign one column each contribute their names in order. */
  lemma {:induction false} SingleTargets(reqs: seq<Request>, n: nat)
    requires n <= |reqs| && forall k :: 0 <= k < |reqs| ==> reqs[k].LagRequest?
    ensures |AllTargets(reqs, n)| == n
    ensures forall k :: 0 <= k < n ==> AllTargets(reqs, n)[k] == reqs[k].name
  {
    if n > 0 {
      SingleTargets(reqs, n - 1);
    }
  }

  /** With distinct columns and distinct lags whose names are new, the lag columns are
      appended after the existing ones. */
  lemma LagFeaturesNames(t: Table, columns: seq<string>, lags: seq<int>)
    requires forall a, b :: 0 <= a < b < |columns| ==> columns[a] != columns[b]
    requires forall a, b :: 0 <= a < b < |lags| ==> lags[a] != lags[b]
    requires forall c, k :: c in columns && k in lags ==> FeatureName(c, Lag, k) !in t.columns
    requires LagFeatures(t, columns, lags).status == Done
    ensures LagFeatures(t, columns, lags).table.names == t.names + AllTargets(LagRequests(columns, lags), |LagRequests(columns, lags)|)
  {
    var reqs := LagRequests(columns, lags);
    LagRequestsNamed(columns, lags);
    LagRequestsShape(columns, lags);
    NamedUnique(reqs);
    LagRequestsDistinct(columns, lags);
    forall c | c in AllTargets(reqs, |reqs|) ensures c !in t.columns {
      AllTargetsMember(reqs, |reqs|, c);
      var k :| 0 <= k < |reqs| && c in Targets(reqs[k]);
      assert c == FeatureName(reqs[k].column, Lag, reqs[k].lag);
    }
    RunNames(t, reqs, |reqs|);
  }

  /** The appended names come column by column and, within a column, lag by lag:
      `f"{columns[i]}_lag_{lags[j]}"` is name number `i * |lags| + j`. */
  lemma LagNamesOrder(columns: seq<string>, lags: seq<int>, i: nat, j: nat)
    requires i < |columns| && j < |lags|
    ensures 0 <= i * |lags| + j < |AllTargets(LagRequests(columns, lags), |LagRequests(columns, lags)|)|
    ensures AllTargets(LagRequests(columns, lags), |LagRequests(columns, lags)|)[i * |lags| + j] == FeatureName(columns[i], Lag, lags[j])
  {
    var reqs := LagRequests(columns, lags);
    LagRequestsAt(columns, lags, i, j);
    LagRequestsShape(columns, lags);
    SingleTargetAt(reqs, |reqs|, i * |lags| + j);
  }

  lemma SingleTargetAt(reqs: seq<Request>, n: nat, k: int)
    requires n <= |reqs| && forall k :: 0 <= k < |reqs| ==> reqs[k].LagRequest?
    requires 0 <= k < n
    ensures |AllTargets(reqs, n)| == n && AllTargets(reqs, n)[k] == reqs[k].name
  {
    SingleTargets(reqs, n);
  }

  lemma {:induction false} LagRequestsDistinct(columns: seq<string>, lags: seq<int>)
    requires forall a, b :: 0 <= a < b < |columns| ==> columns[a] != columns[b]
    requires forall a, b :: 0 <= a < b < |lags| ==> lags[a] != lags[b]
    ensures DistinctRequests(LagRequests(columns, lags))
    decreases |columns|
  {
    if columns != [] {
      var init, last := columns[..|columns| - 1], columns[|columns| - 1];
      LagRequestsDistinct(init, lags);
      LagRequestsShape(init, lags);
      var a, b := LagRequests(init, lags), ColumnLagRequests(last, lags);
      var r := a + b;
      assert last !in init;
      forall i, j | 0 <= i < j < |r| ensures r[i] != r[j] {
        if j < |a| {
          assert r[i] == a[i] && r[j] == a[j];
        } else if i >= |a| {
          assert r[i] == b[i - |a|] && r[j] == b[j - |a|];
        } else {
          assert r[i] == a[i] && r[i].column in init;
          assert r[j] == b[j - |a|] && r[j].column == last;
        }
      }
    }
  }

  /** Calling `add_lag_features` again with the same arguments raises what the first call
      raised and leaves the table as the first call left it. */
  lemma LagFeaturesIdempotent(t: Table, columns: seq<string>, lags: seq<int>)
    requires Independent(LagRequests(columns, lags))
    ensures LagFeatures(LagFeatures(t, columns, lags).table, columns, lags) == LagFeatures(t, columns, lags)
  {
    var reqs := LagRequests(columns, lags);
    Rerun(t, reqs, |reqs|);
  }

  // ---------------------------------------------------------------------------------------
  // add_rolling_window_features
  // ---------------------------------------------------------------------------------------

  /** The loop bodies of `add_rolling_window_features(columns, w)`: one per column. */
  function RollingRequests(columns: seq<string>, w: int): (r: seq<Request>)
    ensures |r| == |columns|
    ensures forall i :: 0 <= i < |columns| ==> r[i] == RollingRequestOf(columns[i], w)
  {
    seq(|columns|, i requires 0 <= i < |columns| => RollingRequestOf(columns[i], w))
  }

  /** What `add_rolling_window_features(columns, w)` does to a table. */
  function RollingFeatures(t: Table, columns: seq<string>, w: int): Outcome {
    Run(t, RollingRequests(columns, w), |columns|)
  }

  /** It completes exactly when there are no columns, or the window is not negative and
      every requested column exists and holds numbers. */
  lemma RollingFeaturesDone(t: Table, columns: seq<string>, w: int)
    requires NoSourceIsTarget(RollingRequests(columns, w))
    ensures RollingFeatures(t, columns, w).status == Done <==>
      columns == [] || (w >= 0 && forall c :: c in columns ==> c in t.columns && Numeric(t.columns[c]))
  {
    var reqs := RollingRequests(columns, w);
    RunDone(t, reqs, |reqs|);
    if AllPass(t, reqs, |reqs|) {
      forall c | c in columns ensures c in t.columns && Numeric(t.columns[c]) {
        var i :| 0 <= i < |columns| && columns[i] == c;
        assert Check(t, reqs[i]).None?;
      }
      if columns != [] {
        assert Check(t, reqs[0]).None?;
      }
    }
  }

  /** Otherwise the first column that fails raises: a KeyError if it is missing, else a
      negative window, else a column that is not numeric; the columns before it are done. */
  lemma RollingFeaturesRaised(t: Table, columns: seq<string>, w: int, i: int)
    requires NoSourceIsTarget(RollingRequests(columns, w))
    requires 0 <= i < |columns|
    requires forall c :: c in columns[..i] ==> c in t.columns && w >= 0 && Numeric(t.columns[c])
    requires !(columns[i] in t.columns && w >= 0 && Numeric(t.columns[columns[i]]))
    ensures RollingFeatures(t, columns, w) == Outcome(RollingFeatures(t, columns[..i], w).table, Raised(
      if columns[i] !in t.columns then KeyError(columns[i])
      else if w < 0 then InvalidWindow
      else NotNumeric))
  {
    var reqs := RollingRequests(columns, w);
    var before := RollingRequests(columns[..i], w);
    assert AllPass(t, reqs, i) by {
      forall k | 0 <= k < i ensures Check(t, reqs[k]).None? {
        assert columns[k] in columns[..i];
      }
    }
    RunRaisedAt(t, reqs, |reqs|, i);
    assert reqs[..i] == before[..i];
    RunPrefix(t, reqs, before, i);
  }

  /** On completion, `f"{c}_rolling_mean_{w}"` and `f"{c}_rolling_std_{w}"` hold the trailing
      rolling mean and sample variance of column `c` of the original table. */
  lemma RollingFeaturesAlignment(t: Table, columns: seq<string>, w: int, i: int)
    requires Independent(RollingRequests(columns, w))
    requires RollingFeatures(t, columns, w).status == Done
    requires 0 <= i < |columns|
    ensures columns[i] in t.columns && w >= 0
    ensures FeatureName(columns[i], FeatureKind.RollingMean, w) in RollingFeatures(t, columns, w).table.columns
    ensures FeatureName(columns[i], FeatureKind.RollingStd, w) in RollingFeatures(t, columns, w).table.columns
    ensures RollingFeatures(t, columns, w).table.columns[FeatureName(columns[i], FeatureKind.RollingMean, w)]
         == RollingMeanColumn(t.columns[columns[i]], w)
    ensures RollingFeatures(t, columns, w).table.columns[FeatureName(columns[i], FeatureKind.RollingStd, w)]
         == RollingVarianceColumn(t.columns[columns[i]], w)
  {
    var reqs := RollingRequests(columns, w);
    RunDone(t, reqs, |reqs|);
    RunTargetsHold(t, reqs, |reqs|, i);
  }

  /** Calling `add_rolling_window_features` again with the same arguments raises what the
      first call raised and leaves the table as the first call left it. */
  lemma RollingFeaturesIdempotent(t: Table, columns: seq<string>, w: int)
    requires Independent(RollingRequests(columns, w))
    ensures RollingFeatures(RollingFeatures(t, columns, w).table, columns, w) == RollingFeatures(t, columns, w)
  {
    var reqs := RollingRequests(columns, w);
    Rerun(t, reqs, |reqs|);
  }

  // ---------------------------------------------------------------------------------------
  // the FeatureEngineer object
  // ---------------------------------------------------------------------------------------

  /** A loop body that runs after the earlier ones completed is one `Step` on their table. */
  lemma RunAdvance(t: Table, reqs: seq<Request>, k: nat, u: Table)
    requires k < |reqs| && Run(t, reqs, k) == Outcome(u, Done)
    ensures Run(t, reqs, k + 1) == Step(u, reqs[k])
  {
    RunNext(t, reqs, k + 1);
  }

  /** Once a loop body raises, the whole run ends there. */
  lemma RunStops(t: Table, reqs: seq<Request>, k: nat, u: Table, e: FeatureError)
    requires k < |reqs| && Run(t, reqs, k + 1) == Outcome(u, Raised(e))
    ensures Run(t, reqs, |reqs|) == Outcome(u, Raised(e))
  {
    RaisedStays(t, reqs, k + 1, |reqs|);
  }

  /** The number of loop bodies of the nested loops before row `i`, when each row has `n`. */
  function RowStart(i: nat, n: nat): nat {
    if i == 0 then 0 else RowStart(i - 1, n) + n
  }

  lemma RowStartNext(i: nat, n: nat)
    ensures RowStart(i + 1, n) == RowStart(i, n) + n
  {
  }

  lemma {:induction false} RowStartProduct(i: nat, n: nat)
    ensures RowStart(i, n) == i * n
  {
    if i > 0 {
      RowStartProduct(i - 1, n);
    }
  }

  /** The table `u` after the lag columns of `c` for `lags` are assigned one after another,
      each the shift of `c`'s column by its lag. */
  function ColumnLagsAssigned(u: Table, c: string, lags: seq<int>): Table
    requires c in u.columns
  {
    if lags == [] then u
    else
      var last := lags[|lags| - 1];
      Assign(ColumnLagsAssigned(u, c, lags[..|lags| - 1]), FeatureName(c, Lag, last), Shift(u.columns[c], last))
  }

  /** The last of the first `j` lags is assigned last. */
  lemma ColumnLagsLast(u: Table, c: string, lags: seq<int>, j: int)
    requires c in u.columns && 0 < j <= |lags|
    ensures ColumnLagsAssigned(u, c, lags[..j])
      == Assign(ColumnLagsAssigned(u, c, lags[..j - 1]), FeatureName(c, Lag, lags[j - 1]), Shift(u.columns[c], lags[j - 1]))
  {
    assert lags[..j][..j - 1] == lags[..j - 1];
  }

  /** Loop body `k - 1`, the lag request for lag `l` of a column `c` that the table the
      bodies before it built holds, assigns the shifted column. */
  lemma LagRunStep(t: Table, reqs: seq<Request>, k: int, c: string, l: int, u: Table)
    requires 0 < k <= |reqs| && reqs[k - 1] == LagRequestOf(c, l)
    requires c in u.columns && Run(t, reqs, k - 1) == Outcome(u, Done)
    ensures Run(t, reqs, k) == Outcome(Assign(u, FeatureName(c, Lag, l), Shift(u.columns[c], l)), Done)
  {
    RunNext(t, reqs, k);
  }

  /** Assigning lag columns of `c` keeps `c` itself. */
  lemma {:induction false} ColumnLagsKeepSource(u: Table, c: string, lags: seq<int>)
    requires c in u.columns
    ensures c in ColumnLagsAssigned(u, c, lags).columns
    ensures ColumnLagsAssigned(u, c, lags).columns[c] == u.columns[c]
  {
    if lags != [] {
      ColumnLagsKeepSource(u, c, lags[..|lags| - 1]);
      FeatureNameShape(c, Lag, lags[|lags| - 1]);
    }
  }

  /** The loop bodies of column `i` are its lag requests, from `RowStart(i, |lags|)` on. */
  lemma LagRequestsRow(columns: seq<string>, lags: seq<int>, i: nat)
    requires 0 <= i < |columns|
    ensures RowStart(i, |lags|) + |lags| <= |LagRequests(columns, lags)|
    ensures forall m :: 0 <= m < |lags| ==>
      LagRequests(columns, lags)[RowStart(i, |lags|) + m] == LagRequestOf(columns[i], lags[m])
  {
    if |lags| == 0 {
      RowStartProduct(i, 0);
    } else {
      LagRequestsEntry(columns, lags, i, |lags| - 1);
    }
    forall m | 0 <= m < |lags|
      ensures LagRequests(columns, lags)[RowStart(i, |lags|) + m] == LagRequestOf(columns[i], lags[m])
    {
      LagRequestsEntry(columns, lags, i, m);
    }
  }

  /** The request for column `i` and lag `m` is at `RowStart(i, |lags|) + m`. */
  lemma {:induction false} LagRequestsEntry(columns: seq<string>, lags: seq<int>, i: nat, m: nat)
    requires 0 <= i < |columns| && 0 <= m < |lags|
    ensures RowStart(i, |lags|) + m < |LagRequests(columns, lags)|
    ensures LagRequests(columns, lags)[RowStart(i, |lags|) + m] == LagRequestOf(columns[i], lags[m])
    decreases |columns|
  {
    if i < |columns| - 1 {
      LagRequestsEntry(columns[..|columns| - 1], lags, i, m);
      EntryBefore(columns, lags, i, m);
    } else {
      EntryLast(columns, lags, i, m);
    }
  }

  /** `LagRequestsEntry` for a column before the last, from the requests of the others. */
  lemma EntryBefore(columns: seq<string>, lags: seq<int>, i: nat, m: nat)
    requires i < |columns| - 1 && m < |lags|
    requires RowStart(i, |lags|) + m < |LagRequests(columns[..|columns| - 1], lags)|
    requires LagRequests(columns[..|columns| - 1], lags)[RowStart(i, |lags|) + m] == LagRequestOf(columns[..|columns| - 1][i], lags[m])
    ensures RowStart(i, |lags|) + m < |LagRequests(columns, lags)|
    ensures LagRequests(columns, lags)[RowStart(i, |lags|) + m] == LagRequestOf(columns[i], lags[m])
  {
    var a, b := LagRequests(columns[..|columns| - 1], lags), ColumnLagRequests(columns[|columns| - 1], lags);
    assert LagRequests(columns, lags) == a + b;
    assert (a + b)[RowStart(i, |lags|) + m] == a[RowStart(i, |lags|) + m];
    assert columns[..|columns| - 1][i] == columns[i];
  }

  /** `LagRequestsEntry` for the last column. */
  lemma EntryLast(columns: seq<string>, lags: seq<int>, i: nat, m: nat)
    requires i == |columns| - 1 && m < |lags|
    ensures RowStart(i, |lags|) + m < |LagRequests(columns, lags)|
    ensures LagRequests(columns, lags)[RowStart(i, |lags|) + m] == LagRequestOf(columns[i], lags[m])
  {
    var a, b := LagRequests(columns[..|columns| - 1], lags), ColumnLagRequests(columns[|columns| - 1], lags);
    assert LagRequests(columns, lags) == a + b;
    assert (a + b)[|a| + m] == b[m];
  }

  /** Loop bodies that are the lag requests of a present column `c`, run from the table
      `u0`: after `j` of them the table is `u0` with the lag columns of `lags[..j]`. */
  lemma {:induction false} LagRunPrefix(t: Table, reqs: seq<Request>, start: nat, c: string, lags: seq<int>, u0: Table, j: nat, k: nat)
    requires j <= |lags| && k == start + j && start + |lags| <= |reqs| && c in u0.columns
    requires forall m :: 0 <= m < |lags| ==> reqs[start + m] == LagRequestOf(c, lags[m])
    requires Run(t, reqs, start) == Outcome(u0, Done)
    ensures Run(t, reqs, k) == Outcome(ColumnLagsAssigned(u0, c, lags[..j]), Done)
  {
    if j > 0 {
      LagRunPrefix(t, reqs, start, c, lags, u0, j - 1, k - 1);
      var u := ColumnLagsAssigned(u0, c, lags[..j - 1]);
      ColumnLagsKeepSource(u0, c, lags[..j - 1]);
      assert reqs[k - 1] == LagRequestOf(c, lags[j - 1]) by {
        assert reqs[start + (j - 1)] == LagRequestOf(c, lags[j - 1]);
        assert start + (j - 1) == k - 1;
      }
      LagRunStep(t, reqs, k, c, lags[j - 1], u);
      ColumnLagsLast(u0, c, lags, j);
    } else {
      assert lags[..0] == [];
    }
  }

  /** The loop bodies of column `i`, run on the table `u0` the earlier columns built: with
      no lags nothing happens, a missing column ends the whole run with a KeyError, and
      otherwise the table becomes `ColumnLagsAssigned`. */
  lemma ColumnLagsRun(t: Table, columns: seq<string>, lags: seq<int>, i: int, u0: Table)
    requires 0 <= i < |columns|
    requires RowStart(i, |lags|) <= |LagRequests(columns, lags)|
    requires Run(t, LagRequests(columns, lags), RowStart(i, |lags|)) == Outcome(u0, Done)
    ensures RowStart(i + 1, |lags|) <= |LagRequests(columns, lags)|
    ensures lags == [] ==> Run(t, LagRequests(columns, lags), RowStart(i + 1, |lags|)) == Outcome(u0, Done)
    ensures columns[i] in u0.columns ==>
      Run(t, LagRequests(columns, lags), RowStart(i + 1, |lags|))
        == Outcome(ColumnLagsAssigned(u0, columns[i], lags), Done)
    ensures columns[i] !in u0.columns && lags != [] ==>
      LagFeatures(t, columns, lags) == Outcome(u0, Raised(KeyError(columns[i])))
  {
    var reqs, start := LagRequests(columns, lags), RowStart(i, |lags|);
    RowStartNext(i, |lags|);
    LagRequestsRow(columns, lags, i);
    if columns[i] in u0.columns {
      LagRunPrefix(t, reqs, start, columns[i], lags, u0, |lags|, RowStart(i + 1, |lags|));
      assert lags[..|lags|] == lags;
    } else if lags != [] {
      RunAdvance(t, reqs, start, u0);
      assert reqs[start + 0] == LagRequestOf(columns[i], lags[0]);
      RunStops(t, reqs, start, u0, KeyError(columns[i]));
    }
  }

  /** The inner loop of `add_lag_features`, for one column on the table `u0`: a KeyError
      when the column is missing, otherwise one shifted column per lag. */
  method ApplyColumnLags(column: string, lags: seq<int>, u0: Table) returns (u: Table, status: Status)
    ensures column in u0.columns ==> status == Done && u == ColumnLagsAssigned(u0, column, lags)
    ensures column !in u0.columns && lags == [] ==> status == Done && u == u0
    ensures column !in u0.columns && lags != [] ==> status == Raised(KeyError(column)) && u == u0
  {
    u := u0;
    for j := 0 to |lags|
      invariant j > 0 ==> column in u0.columns
      invariant column !in u0.columns ==> u == u0
      invariant column in u0.columns ==>
        column in u.columns && u.columns[column] == u0.columns[column] && u == ColumnLagsAssigned(u0, column, lags[..j])
    {
      if column !in u.columns {
        status := Raised(KeyError(column));
        return;
      }
      FeatureNameShape(column, Lag, lags[j]);
      assert lags[..j + 1][..j] == lags[..j];
      u := Assign(u, FeatureName(column, Lag, lags[j]), Shift(u.columns[column], lags[j]));
    }
    status := Done;
    assert lags[..|lags|] == lags;
  }

  /** The loops of `add_lag_features` on a table `t`: for each column, for each lag, the
      shifted column, until a column is missing. */
  method ApplyLagFeatures(t: Table, columns: seq<string>, lags: seq<int>) returns (u: Table, status: Status)
    ensures Outcome(u, status) == LagFeatures(t, columns, lags)
  {
    u := t;
    for i := 0 to |columns|
      invariant RowStart(i, |lags|) <= |LagRequests(columns, lags)|
      invariant Run(t, LagRequests(columns, lags), RowStart(i, |lags|)) == Outcome(u, Done)
    {
      ColumnLagsRun(t, columns, lags, i, u);
      u, status := ApplyColumnLags(columns[i], lags, u);
      if status.Raised? {
        return;
      }
    }
    status := Done;
  }

  /** The loop of `add_rolling_window_features` on a table `t`: for each column, the
      rolling mean and then the rolling std, until a check fails. */
  method ApplyRollingFeatures(t: Table, columns: seq<string>, w: int) returns (u: Table, status: Status)
    ensures Outcome(u, status) == RollingFeatures(t, columns, w)
  {
    ghost var reqs := RollingRequests(columns, w);
    u := t;
    status := Done;
    for i := 0 to |columns|
      invariant status == Done && Run(t, reqs, i) == Outcome(u, Done)
    {
      RunAdvance(t, reqs, i, u);
      u, status := ApplyRollingColumn(columns[i], w, u);
      if status.Raised? {
        RunStops(t, reqs, i, u, status.error);
        return;
      }
    }
  }

  /** The body of the `for column` loop of `add_rolling_window_features` on the table `u0`:
      the first failing check raises, otherwise the rolling mean and then the rolling std
      of the column are assigned. */
  method ApplyRollingColumn(column: string, w: int, u0: Table) returns (u: Table, status: Status)
    ensures Outcome(u, status) == Step(u0, RollingRequestOf(column, w))
  {
    u := u0;
    if column !in u.columns {
      return u, Raised(KeyError(column));
    } else if w < 0 {
      return u, Raised(InvalidWindow);
    } else if !Numeric(u.columns[column]) {
      return u, Raised(NotNumeric);
    }
    u := Assign(u, FeatureName(column, FeatureKind.RollingMean, w), RollingMeanColumn(u.columns[column], w));
    u := Assign(u, FeatureName(column, FeatureKind.RollingStd, w), RollingVarianceColumn(u.columns[column], w));
    status := Done;
  }

  /** A pandas `DataFrame` object: callers that hold the same object see every column
      assigned to it. */
  class Frame {
    var table: Table

    constructor (table: Table)
      ensures this.table == table
    {
      this.table := table;
    }
  }

  /** The engineer keeps the caller's data frame object and adds feature columns to it in
      place. */
  class FeatureEngineer {
    /** The caller's frame itself, never replaced; every `add_*` method extends it. */
    const data: Frame
    /** The table the frame held when the engineer was built. */
    ghost const original: Table

    /** The frame stays well formed and extends the original: same rows, the original
        names first and in order. */
    ghost predicate Valid()
      reads this, data
    {
      WellFormed(data.table) && Extends(data.table, original)
    }

    /** `self.data = data` keeps a reference to the caller's frame, not a copy. */
    constructor (frame: Frame)
      requires WellFormed(frame.table)
      ensures Valid() && data == frame && original == frame.table
    {
      data := frame;
      original := frame.table;
    }

    /** `add_time_features`: the two calendar columns from `timestamp`. */
    method AddTimeFeatures() returns (status: Status)
      requires Valid()
      modifies data
      ensures Valid() && Extends(data.table, old(data.table))
      ensures Outcome(data.table, status) == TimeFeatures(old(data.table))
    {
      var t := data.table;
      TimeFeaturesExtends(t);
      ExtendsTransitive(TimeFeatures(t).table, t, original);
      if TimestampName !in t.columns {
        return Raised(KeyError(TimestampName));
      }
      var ts := t.columns[TimestampName];
      if !DatetimeLike(ts) {
        return Raised(NotDatetimeLike);
      }
      t := Assign(t, DayOfWeekName, DayOfWeekColumn(ts));
      t := Assign(t, IsWeekendName, IsWeekendColumn(t.columns[DayOfWeekName]));
      data.table := t;
      status := Done;
    }

    /** `add_lag_features`: for each column, for each lag, the shifted column under
        `f"{column}_lag_{lag}"`. */
    method AddLagFeatures(columns: seq<string>, lagPeriods: seq<int>) returns (status: Status)
      requires Valid()
      modifies data
      ensures Valid() && Extends(data.table, old(data.table))
      ensures Outcome(data.table, status) == LagFeatures(old(data.table), columns, lagPeriods)
    {
      var d;
      d, status := ApplyLagFeatures(data.table, columns, lagPeriods);
      RunExtends(data.table, LagRequests(columns, lagPeriods), |LagRequests(columns, lagPeriods)|);
      ExtendsTransitive(d, data.table, original);
      data.table := d;
    }

    /** `add_rolling_window_features`: for each column, the trailing mean and standard
        deviation over `windowSize` rows under `f"{column}_rolling_mean_{windowSize}"` and
        `f"{column}_rolling_std_{windowSize}"`. */
    method AddRollingWindowFeatures(columns: seq<string>, windowSize: int) returns (status: Status)
      requires Valid()
      modifies data
      ensures Valid() && Extends(data.table, old(data.table))
      ensures Outcome(data.table, status) == RollingFeatures(old(data.table), columns, windowSize)
    {
      var d;
      d, status := ApplyRollingFeatures(data.table, columns, windowSize);
      RunExtends(data.table, RollingRequests(columns, windowSize), |columns|);
      ExtendsTransitive(d, data.table, original);
      data.table := d;
    }

    /** `get_engineered_data`: the engineer's frame itself, whose table has the original
        columns first and the engineered ones after them, over the same rows. The object is
        shared, so a later `add_*` call also changes what an earlier call returned. */
    function GetEngineeredData(): (r: Frame)
      reads this, data
      requires Valid()
      ensures r == data
      ensures Extends(r.table, original)
    {
      data
    }
  }

  /** The caller's frame, the engineer's frame and the frame `get_engineered_data` returned
      are one object: adding lag features after `get_engineered_data` changes the table the
      caller and the earlier result both see. */
  method SharedFrameExample(frame: Frame, columns: seq<string>, lags: seq<int>) returns (returned: Frame, status: Status)
    requires WellFormed(frame.table)
    modifies frame
    ensures returned == frame
    ensures Outcome(returned.table, status) == LagFeatures(old(frame.table), columns, lags)
    ensures Extends(frame.table, old(frame.table))
  {
    var engineer := new FeatureEngineer(frame);
    returned := engineer.GetEngineeredData();
    status := engineer.AddLagFeatures(columns, lags);
  }
}
