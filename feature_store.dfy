/** `FeatureStoreManager.generate_feature_descriptions`: the feature-store schema, one name
    and one description per feature, for the fixed pollutant, lag and window lists. */
module FeatureStore {
  import opened Text
  import opened FeatureNames
  import opened FeatureEngineering

  /** One `{"name": ..., "description": ...}` entry of the schema. */
  datatype FeatureDescription = FeatureDescription(name: string, description: string)

  const Pollutants: seq<string> := ["no", "no2", "nox", "o3"]
  const LagPeriods: seq<int> := [1, 2, 3]
  const WindowSizes: seq<int> := [3]

  /** The three entries the list starts with. */
  const TimeDescriptions: seq<FeatureDescription> := [
    FeatureDescription("datetime", "Reference time for the data observation"),
    FeatureDescription(DayOfWeekName, "Day of the week extracted from the datetime"),
    FeatureDescription(IsWeekendName, "Boolean indicating if the day is a weekend")
  ]

  /** `b` occurs in `a + b + c` right after `a`. */
  lemma Between(a: string, b: string, c: string)
    ensures IsInfix(b, a + b + c)
  {
    assert OccursAt(b, a + b + c, |a|);
  }

  /** `f"{pre}{n}{mid}{column} pollutant levels"`: the shape every feature description takes. */
  function Sentence(pre: string, n: int, mid: string, column: string): (s: string)
    ensures IsInfix(IntToString(n), s) && IsInfix(column, s)
  {
    var s := pre + IntToString(n) + mid + column + " pollutant levels";
    assert s == pre + IntToString(n) + (mid + column + " pollutant levels");
    Between(pre, IntToString(n), mid + column + " pollutant levels");
    Between(pre + IntToString(n) + mid, column, " pollutant levels");
    s
  }

  /** The entry for `f"{column}_lag_{lag}"`. */
  function LagDescription(column: string, lag: int): (d: FeatureDescription)
    ensures d.name == FeatureName(column, Lag, lag)
    ensures IsInfix(column, d.description) && IsInfix(IntToString(lag), d.description)
  {
    FeatureDescription(FeatureName(column, Lag, lag), Sentence("Lag of ", lag, " period(s) for ", column))
  }

  /** The entry for `f"{column}_rolling_mean_{w}"`. */
  function RollingMeanDescription(column: string, w: int): (d: FeatureDescription)
    ensures d.name == FeatureName(column, RollingMean, w)
    ensures IsInfix(column, d.description) && IsInfix(IntToString(w), d.description)
  {
    FeatureDescription(FeatureName(column, RollingMean, w),
                       Sentence("Rolling mean of the past ", w, " periods for ", column))
  }

  /** The entry for `f"{column}_rolling_std_{w}"`. */
  function RollingStdDescription(column: string, w: int): (d: FeatureDescription)
    ensures d.name == FeatureName(column, RollingStd, w)
    ensures IsInfix(column, d.description) && IsInfix(IntToString(w), d.description)
  {
    FeatureDescription(FeatureName(column, RollingStd, w),
                       Sentence("Rolling standard deviation of the past ", w, " periods for ", column))
  }

  /** Which feature an appended entry describes: its pollutant, its kind and its lag or window. */
  datatype FeatureKey = FeatureKey(column: string, kind: FeatureKind, n: int)

  function Describe(k: FeatureKey): FeatureDescription {
    match k.kind
    case Lag => LagDescription(k.column, k.n)
    case RollingMean => RollingMeanDescription(k.column, k.n)
    case RollingStd => RollingStdDescription(k.column, k.n)
  }

  function DescribeAll(keys: seq<FeatureKey>): (r: seq<FeatureDescription>)
    ensures |r| == |keys|
  {
    seq(|keys|, i requires 0 <= i < |keys| => Describe(keys[i]))
  }

  /** The inner `for lag in lag_periods` loop: one lag feature per lag, in order. */
  function LagKeys(column: string, lags: seq<int>): (r: seq<FeatureKey>)
    ensures |r| == |lags|
  {
    seq(|lags|, j requires 0 <= j < |lags| => FeatureKey(column, Lag, lags[j]))
  }

  /** The inner `for window_size in window_sizes` loop: the mean and then the std for each
      window, in order. */
  function WindowKeys(column: string, windows: seq<int>): (r: seq<FeatureKey>)
    ensures |r| == 2 * |windows|
  {
    if windows == [] then []
    else
      var w := windows[|windows| - 1];
      WindowKeys(column, windows[..|windows| - 1]) + [FeatureKey(column, RollingMean, w), FeatureKey(column, RollingStd, w)]
  }

  /** The outer `for column in pollutant_columns` loop: each pollutant's lag features, then
      its window features. */
  function Keys(pollutants: seq<string>, lags: seq<int>, windows: seq<int>): seq<FeatureKey>
  {
    if pollutants == [] then []
    else
      var c := pollutants[|pollutants| - 1];
      Keys(pollutants[..|pollutants| - 1], lags, windows) + LagKeys(c, lags) + WindowKeys(c, windows)
  }

  /** The list the loops build from a pollutant, a lag and a window list. */
  function SchemaOf(pollutants: seq<string>, lags: seq<int>, windows: seq<int>): seq<FeatureDescription> {
    TimeDescriptions + DescribeAll(Keys(pollutants, lags, windows))
  }

  /** The list `generate_feature_descriptions` returns. */
  function Schema(): seq<FeatureDescription> {
    SchemaOf(Pollutants, LagPeriods, WindowSizes)
  }

  /** Appending the entry of one more feature keeps the list the calendar entries followed by
      the entries of the features so far. */
  lemma Appended(list: seq<FeatureDescription>, keys: seq<FeatureKey>, k: FeatureKey)
    requires list == TimeDescriptions + DescribeAll(keys)
    ensures list + [Describe(k)] == TimeDescriptions + DescribeAll(keys + [k])
  {
    var next := DescribeAll(keys + [k]);
    assert next == DescribeAll(keys) + [Describe(k)] by {
      assert forall i :: 0 <= i < |keys| ==> (keys + [k])[i] == keys[i];
    }
    SnocAssoc(TimeDescriptions, DescribeAll(keys), Describe(k));
  }

  lemma LagKeysNext(column: string, lags: seq<int>, j: int)
    requires 0 <= j < |lags|
    ensures LagKeys(column, lags[..j + 1]) == LagKeys(column, lags[..j]) + [FeatureKey(column, Lag, lags[j])]
  {
  }

  lemma WindowKeysNext(column: string, windows: seq<int>, w: int)
    requires 0 <= w < |windows|
    ensures WindowKeys(column, windows[..w + 1])
         == WindowKeys(column, windows[..w]) + [FeatureKey(column, RollingMean, windows[w])] + [FeatureKey(column, RollingStd, windows[w])]
  {
    assert windows[..w + 1][..w] == windows[..w];
    var mean, std := FeatureKey(column, RollingMean, windows[w]), FeatureKey(column, RollingStd, windows[w]);
    assert WindowKeys(column, windows[..w]) + [mean, std] == WindowKeys(column, windows[..w]) + [mean] + [std];
  }

  lemma SnocAssoc<T>(a: seq<T>, b: seq<T>, x: T)
    ensures a + b + [x] == a + (b + [x])
  {
  }

  /** `generate_feature_descriptions`: the list it returns. */
  method GenerateFeatureDescriptions() returns (featureDescriptions: seq<FeatureDescription>)
    ensures featureDescriptions == Schema()
  {
    featureDescriptions := DescribeFeatures(Pollutants, LagPeriods, WindowSizes);
  }

  /** The loops of `generate_feature_descriptions` over its three lists: the three calendar
      entries, then for each pollutant its lag entries and its rolling mean and std entries,
      appended one by one. */
  method DescribeFeatures(pollutantColumns: seq<string>, lagPeriods: seq<int>, windowSizes: seq<int>)
    returns (featureDescriptions: seq<FeatureDescription>)
    ensures featureDescriptions == SchemaOf(pollutantColumns, lagPeriods, windowSizes)
  {
    featureDescriptions := TimeDescriptions;
    ghost var keys: seq<FeatureKey> := [];
    for p := 0 to |pollutantColumns|
      invariant keys == Keys(pollutantColumns[..p], lagPeriods, windowSizes)
      invariant featureDescriptions == TimeDescriptions + DescribeAll(keys)
    {
      var column := pollutantColumns[p];
      ghost var before := keys;
      for j := 0 to |lagPeriods|
        invariant keys == before + LagKeys(column, lagPeriods[..j])
        invariant featureDescriptions == TimeDescriptions + DescribeAll(keys)
      {
        ghost var k := FeatureKey(column, Lag, lagPeriods[j]);
        Appended(featureDescriptions, keys, k);
        featureDescriptions := featureDescriptions + [LagDescription(column, lagPeriods[j])];
        LagKeysNext(column, lagPeriods, j);
        SnocAssoc(before, LagKeys(column, lagPeriods[..j]), k);
        keys := keys + [k];
      }
      assert lagPeriods[..|lagPeriods|] == lagPeriods;
      ghost var afterLags := keys;
      for w := 0 to |windowSizes|
        invariant keys == afterLags + WindowKeys(column, windowSizes[..w])
        invariant featureDescriptions == TimeDescriptions + DescribeAll(keys)
      {
        ghost var mean := FeatureKey(column, RollingMean, windowSizes[w]);
        ghost var std := FeatureKey(column, RollingStd, windowSizes[w]);
        Appended(featureDescriptions, keys, mean);
        featureDescriptions := featureDescriptions + [RollingMeanDescription(column, windowSizes[w])];
        Appended(featureDescriptions, keys + [mean], std);
        featureDescriptions := featureDescriptions + [RollingStdDescription(column, windowSizes[w])];
        WindowKeysNext(column, windowSizes, w);
        SnocAssoc(afterLags, WindowKeys(column, windowSizes[..w]), mean);
        SnocAssoc(afterLags, WindowKeys(column, windowSizes[..w]) + [mean], std);
        keys := keys + [mean] + [std];
      }
      assert windowSizes[..|windowSizes|] == windowSizes;
      assert pollutantColumns[..p + 1][..p] == pollutantColumns[..p];
    }
    assert pollutantColumns[..|pollutantColumns|] == pollutantColumns;
  }

  // ---------------------------------------------------------------------------------------
  // What the schema holds
  // ---------------------------------------------------------------------------------------

  /** Each entry is named after its feature with the engineer's column-name pattern, and its
      description mentions the pollutant and the lag or window. */
  lemma DescribeNamesAndMentions(k: FeatureKey)
    ensures Describe(k).name == FeatureName(k.column, k.kind, k.n)
    ensures IsInfix(k.column, Describe(k).description) && IsInfix(IntToString(k.n), Describe(k).description)
  {
    match k.kind
    case Lag =>
    case RollingMean =>
    case RollingStd =>
  }

  /** `3 + |pollutants| * (|lags| + 2 * |windows|)` entries. */
  lemma {:induction false} KeysLength(pollutants: seq<string>, lags: seq<int>, windows: seq<int>)
    ensures |Keys(pollutants, lags, windows)| == |pollutants| * (|lags| + 2 * |windows|)
    decreases |pollutants|
  {
    if pollutants != [] {
      KeysLength(pollutants[..|pollutants| - 1], lags, windows);
      var B := |lags| + 2 * |windows|;
      assert |pollutants| * B == (|pollutants| - 1) * B + B;
    }
  }

  /** The schema has 3 + 4 * (3 + 2 * 1) = 23 entries. */
  lemma SchemaLength()
    ensures |Schema()| == 23
  {
    KeysLength(Pollutants, LagPeriods, WindowSizes);
  }

  /** It starts with `datetime`, `day_of_week` and `is_weekend`, in that order. */
  lemma SchemaStart()
    ensures |Schema()| >= 3
    ensures Schema()[0].name == "datetime" && Schema()[1].name == "day_of_week" && Schema()[2].name == "is_weekend"
  {
  }

  /** The window entries of one pollutant: the mean and then the std of window `w` are
      entries `2 * w` and `2 * w + 1`. */
  lemma {:induction false} WindowKeysAt(column: string, windows: seq<int>, w: int)
    requires 0 <= w < |windows|
    ensures WindowKeys(column, windows)[2 * w] == FeatureKey(column, RollingMean, windows[w])
    ensures WindowKeys(column, windows)[2 * w + 1] == FeatureKey(column, RollingStd, windows[w])
    decreases |windows|
  {
    var init := windows[..|windows| - 1];
    if w < |init| {
      WindowKeysAt(column, init, w);
    }
  }

  /** `a * n <= b * n` for `a <= b` and `n >= 0`. */
  lemma MulMonotone(a: int, b: int, n: int)
    requires a <= b && 0 <= n
    ensures a * n <= b * n
  {
  }

  /** Pollutant `p`'s entries form block `p` of `|lags| + 2 * |windows|` entries, starting
      with its lags in order: lag `j` is key `k`. */
  lemma {:induction false} KeysLagAt(pollutants: seq<string>, lags: seq<int>, windows: seq<int>, p: int, j: int, k: int)
    requires 0 <= p < |pollutants| && 0 <= j < |lags|
    requires k == p * (|lags| + 2 * |windows|) + j
    ensures 0 <= k < |Keys(pollutants, lags, windows)|
    ensures Keys(pollutants, lags, windows)[k] == FeatureKey(pollutants[p], Lag, lags[j])
    decreases |pollutants|
  {
    var init := pollutants[..|pollutants| - 1];
    var c := pollutants[|pollutants| - 1];
    var B := |lags| + 2 * |windows|;
    var front := Keys(init, lags, windows);
    KeysLength(init, lags, windows);
    assert Keys(pollutants, lags, windows) == front + LagKeys(c, lags) + WindowKeys(c, windows);
    MulMonotone(0, p, B);
    if p < |init| {
      KeysLagAt(init, lags, windows, p, j, k);
      MulMonotone(p + 1, |init|, B);
      assert (p + 1) * B == p * B + B;
      assert init[p] == pollutants[p];
    } else {
      assert p == |init| && k == |front| + j;
    }
  }

  /** ... followed by the mean and then the std of each window: those of window `w` are keys
      `k` and `k + 1`. */
  lemma {:induction false} KeysWindowAt(pollutants: seq<string>, lags: seq<int>, windows: seq<int>, p: int, w: int, k: int)
    requires 0 <= p < |pollutants| && 0 <= w < |windows|
    requires k == p * (|lags| + 2 * |windows|) + |lags| + 2 * w
    ensures 0 <= k && k + 1 < |Keys(pollutants, lags, windows)|
    ensures Keys(pollutants, lags, windows)[k] == FeatureKey(pollutants[p], RollingMean, windows[w])
    ensures Keys(pollutants, lags, windows)[k + 1] == FeatureKey(pollutants[p], RollingStd, windows[w])
    decreases |pollutants|
  {
    var init := pollutants[..|pollutants| - 1];
    var c := pollutants[|pollutants| - 1];
    var B := |lags| + 2 * |windows|;
    var front := Keys(init, lags, windows);
    KeysLength(init, lags, windows);
    assert Keys(pollutants, lags, windows) == front + LagKeys(c, lags) + WindowKeys(c, windows);
    MulMonotone(0, p, B);
    if p < |init| {
      KeysWindowAt(init, lags, windows, p, w, k);
      MulMonotone(p + 1, |init|, B);
      assert (p + 1) * B == p * B + B;
      assert init[p] == pollutants[p];
    } else {
      assert p == |init| && k == |front| + |lags| + 2 * w;
      WindowKeysAt(c, windows, w);
    }
  }

  /** Entry `at`, three past key `i`, describes key `i`. */
  lemma SchemaOfAt(pollutants: seq<string>, lags: seq<int>, windows: seq<int>, i: int, at: int)
    requires 0 <= i < |Keys(pollutants, lags, windows)| && at == 3 + i
    ensures at < |SchemaOf(pollutants, lags, windows)|
    ensures SchemaOf(pollutants, lags, windows)[at] == Describe(Keys(pollutants, lags, windows)[i])
  {
    var keys := Keys(pollutants, lags, windows);
    assert SchemaOf(pollutants, lags, windows)[at] == DescribeAll(keys)[i];
  }

  /** Lag `j` of pollutant `p` is described at position `j` of block `p`, which starts after
      the three calendar entries and `p` blocks of `|lags| + 2 * |windows|` entries. */
  lemma SchemaLagAt(pollutants: seq<string>, lags: seq<int>, windows: seq<int>, p: int, j: int, at: int)
    requires 0 <= p < |pollutants| && 0 <= j < |lags|
    requires at == 3 + p * (|lags| + 2 * |windows|) + j
    ensures 0 <= at < |SchemaOf(pollutants, lags, windows)|
    ensures SchemaOf(pollutants, lags, windows)[at] == LagDescription(pollutants[p], lags[j])
  {
    var k := p * (|lags| + 2 * |windows|) + j;
    KeysLagAt(pollutants, lags, windows, p, j, k);
    SchemaOfAt(pollutants, lags, windows, k, at);
  }

  /** Window `w` of pollutant `p` is described, mean at `at` and std right after it, after
      the lag entries of block `p`. */
  lemma SchemaWindowAt(pollutants: seq<string>, lags: seq<int>, windows: seq<int>, p: int, w: int, at: int)
    requires 0 <= p < |pollutants| && 0 <= w < |windows|
    requires at == 3 + p * (|lags| + 2 * |windows|) + |lags| + 2 * w
    ensures 0 <= at && at + 1 < |SchemaOf(pollutants, lags, windows)|
    ensures SchemaOf(pollutants, lags, windows)[at] == RollingMeanDescription(pollutants[p], windows[w])
    ensures SchemaOf(pollutants, lags, windows)[at + 1] == RollingStdDescription(pollutants[p], windows[w])
  {
    var k := p * (|lags| + 2 * |windows|) + |lags| + 2 * w;
    KeysWindowAt(pollutants, lags, windows, p, w, k);
    SchemaOfAt(pollutants, lags, windows, k, at);
    SchemaOfAt(pollutants, lags, windows, k + 1, at + 1);
  }

  /** For pollutant `p` (in the order no, no2, nox, o3) the entries starting at `3 + 5 * p`
      are its lags in the order 1, 2, 3 ... */
  lemma SchemaLagLayout(p: int, j: int)
    requires 0 <= p < |Pollutants| && 0 <= j < |LagPeriods|
    ensures 3 + 5 * p + j < |Schema()|
    ensures Schema()[3 + 5 * p + j] == LagDescription(Pollutants[p], LagPeriods[j])
  {
    FiveEntryLag(Pollutants, LagPeriods, WindowSizes, p, j);
  }

  /** ... followed by its rolling mean and its rolling std over the window 3. */
  lemma SchemaWindowLayout(p: int)
    requires 0 <= p < |Pollutants|
    ensures 3 + 5 * p + 4 < |Schema()|
    ensures Schema()[3 + 5 * p + 3] == RollingMeanDescription(Pollutants[p], WindowSizes[0])
    ensures Schema()[3 + 5 * p + 4] == RollingStdDescription(Pollutants[p], WindowSizes[0])
  {
    FiveEntryWindow(Pollutants, LagPeriods, WindowSizes, p);
  }

  /** With three lags and one window, each pollutant has a block of five entries: its lags ... */
  lemma FiveEntryLag(pollutants: seq<string>, lags: seq<int>, windows: seq<int>, p: int, j: int)
    requires |lags| == 3 && |windows| == 1
    requires 0 <= p < |pollutants| && 0 <= j < |lags|
    ensures 3 + 5 * p + j < |SchemaOf(pollutants, lags, windows)|
    ensures SchemaOf(pollutants, lags, windows)[3 + 5 * p + j] == LagDescription(pollutants[p], lags[j])
  {
    assert p * (|lags| + 2 * |windows|) == 5 * p;
    SchemaLagAt(pollutants, lags, windows, p, j, 3 + 5 * p + j);
  }

  /** ... then the mean and the std of the window. */
  lemma FiveEntryWindow(pollutants: seq<string>, lags: seq<int>, windows: seq<int>, p: int)
    requires |lags| == 3 && |windows| == 1
    requires 0 <= p < |pollutants|
    ensures 3 + 5 * p + 4 < |SchemaOf(pollutants, lags, windows)|
    ensures SchemaOf(pollutants, lags, windows)[3 + 5 * p + 3] == RollingMeanDescription(pollutants[p], windows[0])
    ensures SchemaOf(pollutants, lags, windows)[3 + 5 * p + 4] == RollingStdDescription(pollutants[p], windows[0])
  {
    assert p * (|lags| + 2 * |windows|) == 5 * p;
    SchemaWindowAt(pollutants, lags, windows, p, 0, 3 + 5 * p + 3);
    assert 3 + 5 * p + 3 + 1 == 3 + 5 * p + 4;
  }

  /** Every key names one of the pollutants, and one of the lags or one of the windows. */
  lemma {:induction false} KeysShape(pollutants: seq<string>, lags: seq<int>, windows: seq<int>, i: int)
    requires 0 <= i < |Keys(pollutants, lags, windows)|
    ensures Keys(pollutants, lags, windows)[i].column in pollutants
    ensures Keys(pollutants, lags, windows)[i].kind == Lag ==> Keys(pollutants, lags, windows)[i].n in lags
    ensures Keys(pollutants, lags, windows)[i].kind != Lag ==> Keys(pollutants, lags, windows)[i].n in windows
    decreases |pollutants|
  {
    var init := pollutants[..|pollutants| - 1];
    var c := pollutants[|pollutants| - 1];
    var front := Keys(init, lags, windows);
    var keys := Keys(pollutants, lags, windows);
    assert keys == front + LagKeys(c, lags) + WindowKeys(c, windows);
    if i < |front| {
      KeysShape(init, lags, windows, i);
      assert keys[i] == front[i];
    } else if i >= |front| + |lags| {
      WindowKeysShape(c, windows, i - |front| - |lags|);
    }
  }

  lemma {:induction false} WindowKeysShape(column: string, windows: seq<int>, i: int)
    requires 0 <= i < |WindowKeys(column, windows)|
    ensures WindowKeys(column, windows)[i].column == column
    ensures WindowKeys(column, windows)[i].kind != Lag && WindowKeys(column, windows)[i].n in windows
    decreases |windows|
  {
    var init := windows[..|windows| - 1];
    if i < 2 * |init| {
      WindowKeysShape(column, init, i);
    }
  }

  ghost predicate Distinct<T>(s: seq<T>) {
    forall i, j :: 0 <= i < j < |s| ==> s[i] != s[j]
  }

  lemma {:induction false} WindowKeysDistinct(column: string, windows: seq<int>)
    requires Distinct(windows)
    ensures Distinct(WindowKeys(column, windows))
    decreases |windows|
  {
    if windows != [] {
      var init := windows[..|windows| - 1];
      var last := windows[|windows| - 1];
      WindowKeysDistinct(column, init);
      var front := WindowKeys(column, init);
      var r := WindowKeys(column, windows);
      forall i, j | 0 <= i < j < |r| ensures r[i] != r[j] {
        if j >= |front| && i < |front| {
          WindowKeysShape(column, init, i);
          assert r[i] == front[i] && r[i].n in init;
          assert last !in init;
        } else if i < |front| {
          assert r[i] == front[i] && r[j] == front[j];
        }
      }
    }
  }

  /** With distinct pollutants, lags and windows, no feature is described twice. */
  lemma {:induction false} KeysDistinct(pollutants: seq<string>, lags: seq<int>, windows: seq<int>)
    requires Distinct(pollutants) && Distinct(lags) && Distinct(windows)
    ensures Distinct(Keys(pollutants, lags, windows))
    decreases |pollutants|
  {
    if pollutants != [] {
      var init := pollutants[..|pollutants| - 1];
      var c := pollutants[|pollutants| - 1];
      KeysDistinct(init, lags, windows);
      WindowKeysDistinct(c, windows);
      var front := Keys(init, lags, windows);
      var lk := LagKeys(c, lags);
      var wk := WindowKeys(c, windows);
      var keys := front + lk + wk;
      assert c !in init;
      forall i, j | 0 <= i < j < |keys| ensures keys[i] != keys[j] {
        if j < |front| {
          assert keys[i] == front[i] && keys[j] == front[j];
        } else if i < |front| {
          KeysShape(init, lags, windows, i);
          assert keys[i] == front[i] && keys[i].column in init;
          if j < |front| + |lk| {
            assert keys[j] == lk[j - |front|];
          } else {
            assert keys[j] == wk[j - |front| - |lk|];
            WindowKeysShape(c, windows, j - |front| - |lk|);
          }
        } else if j < |front| + |lk| {
          assert keys[i] == lk[i - |front|] && keys[j] == lk[j - |front|];
        } else if i < |front| + |lk| {
          assert keys[i] == lk[i - |front|] && keys[j] == wk[j - |front| - |lk|];
          WindowKeysShape(c, windows, j - |front| - |lk|);
        } else {
          assert keys[i] == wk[i - |front| - |lk|] && keys[j] == wk[j - |front| - |lk|];
        }
      }
    }
  }

  lemma ConfigDistinct()
    ensures Distinct(Pollutants) && Distinct(LagPeriods) && Distinct(WindowSizes)
  {
  }

  /** The calendar entries' names end in a letter. */
  lemma TimeNamesEndInLetter(i: int)
    requires 0 <= i < 3
    ensures |TimeDescriptions[i].name| > 0 && !IsDigit(TimeDescriptions[i].name[|TimeDescriptions[i].name| - 1])
  {
  }

  /** No two entries of the schema share a name. */
  lemma SchemaNamesDistinct()
    ensures forall i, j :: 0 <= i < j < |Schema()| ==> Schema()[i].name != Schema()[j].name
  {
    ConfigDistinct();
    forall i, j | 0 <= i < j < |Schema()| ensures Schema()[i].name != Schema()[j].name {
      SchemaOfNamesDiffer(Pollutants, LagPeriods, WindowSizes, i, j);
    }
  }

  /** With distinct pollutants, lags and windows, the entries at two positions have
      different names. */
  lemma SchemaOfNamesDiffer(pollutants: seq<string>, lags: seq<int>, windows: seq<int>, i: int, j: int)
    requires Distinct(pollutants) && Distinct(lags) && Distinct(windows)
    requires 0 <= i < j < |SchemaOf(pollutants, lags, windows)|
    ensures SchemaOf(pollutants, lags, windows)[i].name != SchemaOf(pollutants, lags, windows)[j].name
  {
    var keys := Keys(pollutants, lags, windows);
    var schema := SchemaOf(pollutants, lags, windows);
    if j >= 3 {
      SchemaOfAt(pollutants, lags, windows, j - 3, j);
      if i >= 3 {
        SchemaOfAt(pollutants, lags, windows, i - 3, i);
        FeatureNamesDiffer(pollutants, lags, windows, i - 3, j - 3);
      } else {
        assert schema[i] == TimeDescriptions[i];
        FeatureNameNotCalendar(keys[j - 3], i);
      }
    } else {
      assert schema[i] == TimeDescriptions[i] && schema[j] == TimeDescriptions[j];
      CalendarNamesDiffer(i, j);
    }
  }

  /** Two different features never share a name. */
  lemma FeatureNamesDiffer(pollutants: seq<string>, lags: seq<int>, windows: seq<int>, a: int, b: int)
    requires Distinct(pollutants) && Distinct(lags) && Distinct(windows)
    requires 0 <= a < b < |Keys(pollutants, lags, windows)|
    ensures Describe(Keys(pollutants, lags, windows)[a]).name != Describe(Keys(pollutants, lags, windows)[b]).name
  {
    var ka := Keys(pollutants, lags, windows)[a];
    var kb := Keys(pollutants, lags, windows)[b];
    KeysDistinct(pollutants, lags, windows);
    assert ka != kb;
    DescribeNamesAndMentions(ka);
    DescribeNamesAndMentions(kb);
    if Describe(ka).name == Describe(kb).name {
      FeatureNameInjective(ka.column, ka.kind, ka.n, kb.column, kb.kind, kb.n);
      assert false;
    }
  }

  /** Feature names end in a digit, calendar names in a letter. */
  lemma FeatureNameNotCalendar(k: FeatureKey, i: int)
    requires 0 <= i < 3
    ensures Describe(k).name != TimeDescriptions[i].name
  {
    DescribeNamesAndMentions(k);
    FeatureNameShape(k.column, k.kind, k.n);
    TimeNamesEndInLetter(i);
  }

  lemma CalendarNamesDiffer(i: int, j: int)
    requires 0 <= i < j < 3
    ensures TimeDescriptions[i].name != TimeDescriptions[j].name
  {
  }

  /** The engineer's pipeline on a table: `add_time_features`, then
      `add_lag_features(pollutants, lags)`, then `add_rolling_window_features(pollutants, w)`,
      stopping at the first that raises. */
  function Engineer(t: Table, pollutants: seq<string>, lags: seq<int>, w: int): Outcome {
    var o1 := TimeFeatures(t);
    if o1.status.Raised? then o1
    else
      var o2 := LagFeatures(o1.table, pollutants, lags);
      if o2.status.Raised? then o2
      else RollingFeatures(o2.table, pollutants, w)
  }

  /** The pipeline with the lists the schema describes. */
  function EngineerAll(t: Table): Outcome {
    Engineer(t, Pollutants, LagPeriods, WindowSizes[0])
  }

  /** When the engineer completes, every feature the schema describes after `datetime` is a
      column of the engineered table. */
  lemma SchemaNamesEngineered(t: Table, i: int)
    requires EngineerAll(t).status == Done
    requires 1 <= i < |Schema()|
    ensures Schema()[i].name in EngineerAll(t).table.columns
  {
    SchemaOfNamesEngineered(t, Pollutants, LagPeriods, WindowSizes, i);
  }

  /** The calendar entries after `datetime` are named after the engineer's calendar columns. */
  lemma CalendarEntryNames()
    ensures TimeDescriptions[1].name == DayOfWeekName && TimeDescriptions[2].name == IsWeekendName
  {
  }

  /** The same for any lists with a single window. */
  lemma SchemaOfNamesEngineered(t: Table, pollutants: seq<string>, lags: seq<int>, windows: seq<int>, i: int)
    requires |windows| == 1
    requires Engineer(t, pollutants, lags, windows[0]).status == Done
    requires 1 <= i < |SchemaOf(pollutants, lags, windows)|
    ensures SchemaOf(pollutants, lags, windows)[i].name in Engineer(t, pollutants, lags, windows[0]).table.columns
  {
    var schema := SchemaOf(pollutants, lags, windows);
    if i < 3 {
      assert schema[i] == TimeDescriptions[i];
      CalendarEntryNames();
      EngineeredCalendar(t, pollutants, lags, windows[0]);
    } else {
      var k := Keys(pollutants, lags, windows)[i - 3];
      SchemaOfAt(pollutants, lags, windows, i - 3, i);
      DescribeNamesAndMentions(k);
      KeysShape(pollutants, lags, windows, i - 3);
      EngineeredKey(t, pollutants, lags, windows, k);
    }
  }

  /** A completed pipeline has the column of every feature of one of its pollutants. */
  lemma EngineeredKey(t: Table, pollutants: seq<string>, lags: seq<int>, windows: seq<int>, k: FeatureKey)
    requires |windows| == 1
    requires Engineer(t, pollutants, lags, windows[0]).status == Done
    requires k.column in pollutants
    requires k.kind == Lag ==> k.n in lags
    requires k.kind != Lag ==> k.n in windows
    ensures FeatureName(k.column, k.kind, k.n) in Engineer(t, pollutants, lags, windows[0]).table.columns
  {
    var p :| 0 <= p < |pollutants| && pollutants[p] == k.column;
    if k.kind == Lag {
      var j :| 0 <= j < |lags| && lags[j] == k.n;
      EngineeredLag(t, pollutants, lags, windows[0], p, j);
    } else {
      assert windows == [windows[0]];
      EngineeredWindow(t, pollutants, lags, windows[0], p, k.kind);
    }
  }

  /** A completed pipeline has both calendar columns ... */
  lemma EngineeredCalendar(t: Table, pollutants: seq<string>, lags: seq<int>, w: int)
    requires Engineer(t, pollutants, lags, w).status == Done
    ensures DayOfWeekName in Engineer(t, pollutants, lags, w).table.columns
    ensures IsWeekendName in Engineer(t, pollutants, lags, w).table.columns
  {
    var t1 := TimeFeatures(t).table;
    var lagReqs := LagRequests(pollutants, lags);
    var t2 := LagFeatures(t1, pollutants, lags).table;
    var rollReqs := RollingRequests(pollutants, w);
    assert TimeFeatures(t).status == Done && LagFeatures(t1, pollutants, lags).status == Done;
    assert Engineer(t, pollutants, lags, w) == Run(t2, rollReqs, |rollReqs|);
    assert DayOfWeekName in t1.columns && IsWeekendName in t1.columns;
    RunKeepsColumn(t1, lagReqs, |lagReqs|, DayOfWeekName);
    RunKeepsColumn(t2, rollReqs, |rollReqs|, DayOfWeekName);
    RunKeepsColumn(t1, lagReqs, |lagReqs|, IsWeekendName);
    RunKeepsColumn(t2, rollReqs, |rollReqs|, IsWeekendName);
  }

  /** ... every lag column ... */
  lemma EngineeredLag(t: Table, pollutants: seq<string>, lags: seq<int>, w: int, p: int, j: int)
    requires Engineer(t, pollutants, lags, w).status == Done
    requires 0 <= p < |pollutants| && 0 <= j < |lags|
    ensures FeatureName(pollutants[p], Lag, lags[j]) in Engineer(t, pollutants, lags, w).table.columns
  {
    var t1 := TimeFeatures(t).table;
    var lagReqs := LagRequests(pollutants, lags);
    var t2 := LagFeatures(t1, pollutants, lags).table;
    var rollReqs := RollingRequests(pollutants, w);
    var name := FeatureName(pollutants[p], Lag, lags[j]);
    assert TimeFeatures(t).status == Done && LagFeatures(t1, pollutants, lags).status == Done;
    assert Engineer(t, pollutants, lags, w) == Run(t2, rollReqs, |rollReqs|);
    LagRequestsHas(pollutants, lags, p, j);
    var r :| 0 <= r < |lagReqs| && lagReqs[r] == LagRequestOf(pollutants[p], lags[j]);
    RunTargetPresent(t1, lagReqs, |lagReqs|, r, name);
    RunKeepsColumn(t2, rollReqs, |rollReqs|, name);
  }

  /** ... and both rolling columns of every pollutant. */
  lemma EngineeredWindow(t: Table, pollutants: seq<string>, lags: seq<int>, w: int, p: int, kind: FeatureKind)
    requires Engineer(t, pollutants, lags, w).status == Done
    requires 0 <= p < |pollutants| && kind != Lag
    ensures FeatureName(pollutants[p], kind, w) in Engineer(t, pollutants, lags, w).table.columns
  {
    var t1 := TimeFeatures(t).table;
    var t2 := LagFeatures(t1, pollutants, lags).table;
    var rollReqs := RollingRequests(pollutants, w);
    assert TimeFeatures(t).status == Done && LagFeatures(t1, pollutants, lags).status == Done;
    assert Engineer(t, pollutants, lags, w) == Run(t2, rollReqs, |rollReqs|);
    assert rollReqs[p] == RollingRequestOf(pollutants[p], w);
    RunTargetPresent(t2, rollReqs, |rollReqs|, p, FeatureName(pollutants[p], kind, w));
  }
}
