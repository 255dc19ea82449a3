/** Discrete derivatives of one column of a data frame: the first difference
    (velocity) and the difference of that (acceleration), each with its
    undefined leading entry filled with zero. */
module MathFeatures {
  import opened Outcomes
  import opened RealSums

  /** A data frame seen as its columns by name; every column is a series. */
  type Frame = map<string, seq<real>>

  /** The error derivatives raises. */
  datatype FrameError = MissingColumn(column: string)

  /** The two series derivatives returns, aligned with the input column. */
  datatype Derivs = Derivs(velocity: seq<real>, acceleration: seq<real>)

  /** The first difference of x, with the first entry (undefined) set to 0. */
  function Diff(x: seq<real>): (d: seq<real>)
    ensures |d| == |x|
    ensures |x| > 0 ==> d[0] == 0.0
    ensures forall i :: 1 <= i < |x| ==> d[i] == x[i] - x[i - 1]
    decreases |x|
  {
    if |x| == 0 then []
    else if |x| == 1 then [0.0]
    else Diff(x[..|x| - 1]) + [x[|x| - 1] - x[|x| - 2]]
  }

  /** derivatives(df, col): fails when col is not a column of df; otherwise the
      velocity and acceleration of that column, both as long as the column. */
  function Derivatives(df: Frame, col: string): (r: Result<Derivs, FrameError>)
    ensures r.Err? <==> col !in df
    ensures r.Err? ==> r.error == MissingColumn(col)
    ensures r.Ok? ==> |r.value.velocity| == |df[col]| && |r.value.acceleration| == |df[col]|
  {
    if col !in df then Err(MissingColumn(col))
    else
      var velocity := Diff(df[col]);
      Ok(Derivs(velocity, Diff(velocity)))
  }

  /** Velocity is the first difference of the column and acceleration the first
      difference of velocity: both 0 at the start, acceleration equal to the
      velocity at index 1, and x[i] - 2 x[i-1] + x[i-2] from then on. */
  lemma AccelerationIsSecondDifference(df: Frame, col: string)
    requires col in df
    ensures var x := df[col];
      var r := Derivatives(df, col).value;
      && (|x| > 0 ==> r.velocity[0] == 0.0 && r.acceleration[0] == 0.0)
      && (|x| > 1 ==> r.acceleration[1] == r.velocity[1] == x[1] - x[0])
      && (forall i :: 1 <= i < |x| ==> r.velocity[i] == x[i] - x[i - 1])
      && (forall i :: 1 <= i < |x| ==> r.acceleration[i] == r.velocity[i] - r.velocity[i - 1])
      && (forall i :: 2 <= i < |x| ==> r.acceleration[i] == x[i] - 2.0 * x[i - 1] + x[i - 2])
  {
  }

  /** A flat column has zero velocity and zero acceleration everywhere. */
  lemma ConstantColumnIsAtRest(df: Frame, col: string, c: real)
    requires col in df
    requires forall i :: 0 <= i < |df[col]| ==> df[col][i] == c
    ensures var r := Derivatives(df, col).value;
      && (forall i :: 0 <= i < |r.velocity| ==> r.velocity[i] == 0.0)
      && (forall i :: 0 <= i < |r.acceleration| ==> r.acceleration[i] == 0.0)
  {
    var x := df[col];
    var v := Diff(x);
    forall i | 1 <= i < |v|
      ensures v[i] == 0.0
    {
      assert x[i] == c && x[i - 1] == c;
    }
    var a := Diff(v);
    forall i | 1 <= i < |a|
      ensures a[i] == 0.0
    {
      assert v[i] == 0.0 && v[i - 1] == 0.0;
    }
  }

  /** Summing the first differences gives back the series: x[i] == x[0] + the
      sum of Diff(x) up to i, so the first difference loses only x[0]. */
  lemma {:induction false} DiffTelescopes(x: seq<real>, i: nat)
    requires i < |x|
    ensures x[0] + Sum(Diff(x)[..i + 1]) == x[i]
  {
    var d := Diff(x);
    if i == 0 {
      assert d[..1] == [d[0]];
      assert Sum(d[..1]) == Sum(d[..0]) + d[0];
    } else {
      DiffTelescopes(x, i - 1);
      SumPrefixStep(d, i);
    }
  }

  /** The first difference of a running sum gives back its summands after the first. */
  lemma {:induction false} DiffOfRunningSum(d: seq<real>, x: seq<real>)
    requires |x| == |d|
    requires forall i :: 0 <= i < |x| ==> x[i] == Sum(d[..i + 1])
    ensures forall i :: 1 <= i < |d| ==> Diff(x)[i] == d[i]
  {
    forall i | 1 <= i < |d|
      ensures Diff(x)[i] == d[i]
    {
      SumPrefixStep(d, i);
      assert x[i - 1] == Sum(d[..i]);
    }
  }
}
