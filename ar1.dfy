/** The global AR(1) sea-surface-temperature model `T(t+1) = alpha·T(t) +
    beta` of ml/model.py (`AR1GLSEAModel.step`, `forecast_array`) and its
    twin `forecast_sst` in ml/train_and_export.py. Fields are rows of
    cells; fitting alpha and beta is least-squares statistics and is not
    part of this model. */
module Ar1 {
  import opened Wrappers
  import opened Numeric

  type Field = seq<seq<Float>>

  predicate SameShape(f: Field, g: Field) {
    |f| == |g| && forall i :: 0 <= i < |f| ==> |f[i]| == |g[i]|
  }

  /** Cells finite at the same places: a lake mask. */
  predicate SameMask(f: Field, g: Field)
    requires SameShape(f, g)
  {
    forall i, j :: 0 <= i < |f| && 0 <= j < |f[i]| ==> (f[i][j].Fin? <==> g[i][j].Fin?)
  }

  function StepValue(alpha: real, beta: real, x: Float): (y: Float)
    ensures y.Fin? <==> x.Fin?
    ensures x.Fin? ==> y.v == alpha * x.v + beta
  {
    match x
    case Fin(t) => Fin(alpha * t + beta)
    case NaN => NaN
  }

  /** `step`: the element-wise update, NaN cells staying NaN. */
  function StepField(alpha: real, beta: real, f: Field): (g: Field)
    ensures SameShape(f, g) && SameMask(f, g)
    ensures forall i, j :: 0 <= i < |f| && 0 <= j < |f[i]| && f[i][j].Fin? ==>
              g[i][j].v == alpha * f[i][j].v + beta
  {
    seq(|f|, i requires 0 <= i < |f| =>
      seq(|f[i]|, j requires 0 <= j < |f[i]| => StepValue(alpha, beta, f[i][j])))
  }

  /** The field after k steps. */
  function Iterate(alpha: real, beta: real, f: Field, k: nat): (g: Field)
    ensures alpha == 1.0 && beta == 0.0 ==> g == f
  {
    if k == 0 then f
    else
      var prev := Iterate(alpha, beta, f, k - 1);
      if alpha == 1.0 && beta == 0.0 then
        IdentityStep(prev);
        StepField(alpha, beta, prev)
      else StepField(alpha, beta, prev)
  }

  /** With α = 1 and β = 0 a step changes no cell. */
  lemma IdentityStep(f: Field)
    ensures StepField(1.0, 0.0, f) == f
  {
    var g := StepField(1.0, 0.0, f);
    forall i | 0 <= i < |f| ensures g[i] == f[i] {
      forall j | 0 <= j < |f[i]| ensures g[i][j] == f[i][j] {
        assert g[i][j] == StepValue(1.0, 0.0, f[i][j]);
      }
    }
  }

  /** Running a steps and then b more is running a + b. */
  lemma {:induction false} IterateSplit(alpha: real, beta: real, f: Field, a: nat, b: nat)
    ensures Iterate(alpha, beta, Iterate(alpha, beta, f, a), b) == Iterate(alpha, beta, f, a + b)
  {
    if b > 0 {
      IterateSplit(alpha, beta, f, a, b - 1);
    }
  }

  /** Forecasting keeps the grid and its lake mask. */
  lemma {:induction false} IterateKeepsMask(alpha: real, beta: real, f: Field, k: nat)
    ensures SameShape(f, Iterate(alpha, beta, f, k)) && SameMask(f, Iterate(alpha, beta, f, k))
  {
    if k > 0 {
      IterateKeepsMask(alpha, beta, f, k - 1);
    }
  }

  predicate Constant(f: Field, c: real) {
    forall i, j :: 0 <= i < |f| && 0 <= j < |f[i]| ==> f[i][j] == Fin(c)
  }

  /** A uniform field at the model's fixed point never changes. */
  lemma {:induction false} FixedPointStays(alpha: real, beta: real, f: Field, c: real, k: nat)
    requires alpha * c + beta == c && Constant(f, c)
    ensures Iterate(alpha, beta, f, k) == f
  {
    if k > 0 {
      FixedPointStays(alpha, beta, f, c, k - 1);
      var g := StepField(alpha, beta, f);
      assert |g| == |f|;
      forall i | 0 <= i < |f|
        ensures g[i] == f[i]
      {
        assert |g[i]| == |f[i]|;
        forall j | 0 <= j < |f[i]|
          ensures g[i][j] == f[i][j]
        {
          assert f[i][j] == Fin(c);
        }
      }
    }
  }

  /** The shared loop: step `current` and append a copy, `steps` times. */
  method Forecast(alpha: real, beta: real, initial: Field, steps: int) returns (outs: seq<Field>)
    ensures |outs| == if steps > 0 then steps else 0
    ensures forall k :: 0 <= k < |outs| ==> outs[k] == Iterate(alpha, beta, initial, k + 1)
  {
    var current := initial;
    outs := [];
    var n := if steps > 0 then steps else 0;
    for k := 0 to n
      invariant |outs| == k
      invariant current == Iterate(alpha, beta, initial, k)
      invariant forall m :: 0 <= m < k ==> outs[m] == Iterate(alpha, beta, initial, m + 1)
    {
      current := StepField(alpha, beta, current);
      outs := outs + [current];
    }
  }

  const EmptyStack: string := "need at least one array to stack"

  /** `forecast_array`: the forecast loop, then `np.stack`, which rejects
      an empty list. */
  method ForecastArray(alpha: real, beta: real, initial: Field, steps: int) returns (r: Result<seq<Field>, string>)
    ensures steps <= 0 <==> r == Err(EmptyStack)
    ensures r.Ok? ==>
              |r.value| == steps && forall k :: 0 <= k < steps ==> r.value[k] == Iterate(alpha, beta, initial, k + 1)
  {
    var outs := Forecast(alpha, beta, initial, steps);
    if |outs| == 0 {
      return Err(EmptyStack);
    }
    return Ok(outs);
  }

  /** `forecast_sst`: the same loop returning the list as is. */
  method ForecastSst(alpha: real, beta: real, sst0: Field, steps: int) returns (fields: seq<Field>)
    ensures |fields| == if steps > 0 then steps else 0
    ensures forall k :: 0 <= k < |fields| ==> fields[k] == Iterate(alpha, beta, sst0, k + 1)
    ensures forall k :: 0 < k < |fields| ==> fields[k] == StepField(alpha, beta, fields[k - 1])
  {
    fields := Forecast(alpha, beta, sst0, steps);
  }
}
