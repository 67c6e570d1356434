/** The names of the engineered columns, `f"{column}_lag_{lag}"`,
    `f"{column}_rolling_mean_{window}"` and `f"{column}_rolling_std_{window}"`, shared by the
    feature engineer that creates the columns and the feature-store schema that describes them. */
module FeatureNames {
  import opened Text

  datatype FeatureKind = Lag | RollingMean | RollingStd

  /** The text between the source column's name and the number. */
  function Marker(kind: FeatureKind): string {
    match kind
    case Lag => "_lag_"
    case RollingMean => "_rolling_mean_"
    case RollingStd => "_rolling_std_"
  }

  /** The name of the `kind` feature of `column` with lag or window `n`. */
  function FeatureName(column: string, kind: FeatureKind, n: int): string {
    column + Marker(kind) + IntToString(n)
  }

  /** A feature name ends in a digit and contains an underscore, so it is never the name of
      its own source column, nor of a column whose name has no underscore. */
  lemma FeatureNameShape(column: string, kind: FeatureKind, n: int)
    ensures |FeatureName(column, kind, n)| > |column| + 1
    ensures '_' in FeatureName(column, kind, n)
    ensures IsDigit(FeatureName(column, kind, n)[|FeatureName(column, kind, n)| - 1])
  {
    var name := FeatureName(column, kind, n);
    assert name[|column|] == '_';
  }

  /** The marker of a kind ends with an underscore, and the character before it tells the
      kinds apart ('g', 'n' or 'd'). */
  lemma MarkerEnds(k1: FeatureKind, k2: FeatureKind)
    ensures |Marker(k1)| >= 2 && Marker(k1)[|Marker(k1)| - 1] == '_'
    ensures k1 != k2 ==> Marker(k1)[|Marker(k1)| - 2] != Marker(k2)[|Marker(k2)| - 2]
  {
  }

  /** Two ways of writing one string as a part ending in an underscore followed by a part
      without one are the same way. */
  lemma LastUnderscoreSplit(a: string, s1: string, b: string, s2: string)
    requires a + s1 == b + s2
    requires |a| > 0 && a[|a| - 1] == '_' && '_' !in s1
    requires |b| > 0 && b[|b| - 1] == '_' && '_' !in s2
    ensures a == b && s1 == s2
  {
    var name := a + s1;
    // Each split puts the last underscore of `name` at the end of its first part.
    assert name[|a| - 1] == '_' && name[|b| - 1] == '_';
    assert forall i :: |a| <= i < |name| ==> name[i] == s1[i - |a|];
    assert forall i :: |b| <= i < |name| ==> name[i] == s2[i - |b|];
    assert |a| == |b|;
    assert a == name[..|a|] == b;
    assert s1 == name[|a|..] == s2;
  }

  /** A feature name determines its source column, its kind and its number: distinct
      features never share a column name. */
  lemma FeatureNameInjective(c1: string, k1: FeatureKind, n1: int, c2: string, k2: FeatureKind, n2: int)
    requires FeatureName(c1, k1, n1) == FeatureName(c2, k2, n2)
    ensures c1 == c2 && k1 == k2 && n1 == n2
  {
    var s1, s2 := IntToString(n1), IntToString(n2);
    var m1, m2 := Marker(k1), Marker(k2);
    MarkerEnds(k1, k2);
    MarkerEnds(k2, k1);
    assert (c1 + m1) + s1 == (c2 + m2) + s2;
    LastUnderscoreSplit(c1 + m1, s1, c2 + m2, s2);
    IntToStringInjective(n1, n2);
    var front := c1 + m1;
    assert front[|front| - 2] == m1[|m1| - 2];
    assert front[|front| - 2] == m2[|m2| - 2];
    assert c1 == front[..|front| - |m1|] == c2;
  }
}
