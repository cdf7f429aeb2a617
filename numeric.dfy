/** Floating-point cells of the ML pipeline's numpy grids. Values are exact
    reals; every non-finite value (NaN, ±inf) is one `NaN`, since the code
    modelled only ever asks whether a value is finite. */
module Numeric {
  datatype Float = Fin(v: real) | NaN

  function Sum(xs: seq<real>): real {
    if xs == [] then 0.0 else Sum(xs[..|xs| - 1]) + xs[|xs| - 1]
  }

  function Mean(xs: seq<real>): (m: real)
    requires xs != []
    ensures m * (|xs| as real) == Sum(xs)
  {
    Sum(xs) / (|xs| as real)
  }

  lemma {:induction false} SumBounds(xs: seq<real>, lo: real, hi: real)
    requires forall i :: 0 <= i < |xs| ==> lo <= xs[i] <= hi
    ensures (|xs| as real) * lo <= Sum(xs) <= (|xs| as real) * hi
    decreases |xs|
  {
    if xs != [] {
      var front := xs[..|xs| - 1];
      assert forall i :: 0 <= i < |front| ==> front[i] == xs[i];
      SumBounds(front, lo, hi);
      assert (|xs| as real) * lo == (|front| as real) * lo + lo;
      assert (|xs| as real) * hi == (|front| as real) * hi + hi;
    }
  }

  lemma DivBounds(s: real, n: real, lo: real, hi: real)
    requires n > 0.0 && n * lo <= s <= n * hi
    ensures lo <= s / n <= hi
  {
    assert s / n * n == s;
  }

  /** `nanmean`-style averages of values bounded by [lo, hi] stay in it. */
  lemma MeanBounds(xs: seq<real>, lo: real, hi: real)
    requires xs != []
    requires forall i :: 0 <= i < |xs| ==> lo <= xs[i] <= hi
    ensures lo <= Mean(xs) <= hi
  {
    SumBounds(xs, lo, hi);
    DivBounds(Sum(xs), |xs| as real, lo, hi);
  }

  /** The finite values of `xs`, in order: what `nanmean` averages. */
  function Finite(xs: seq<Float>): (r: seq<real>)
    ensures |r| <= |xs|
  {
    if xs == [] then []
    else Finite(xs[..|xs| - 1]) + (if xs[|xs| - 1].Fin? then [xs[|xs| - 1].v] else [])
  }

  /** `np.isfinite(block).any()` holds exactly when there is something to
      average, and every averaged value is one of the cells. */
  lemma {:induction false} FiniteMembers(xs: seq<Float>)
    ensures Finite(xs) != [] <==> exists i :: 0 <= i < |xs| && xs[i].Fin?
    ensures forall r :: r in Finite(xs) ==> Fin(r) in xs
    decreases |xs|
  {
    if xs != [] {
      var front := xs[..|xs| - 1];
      FiniteMembers(front);
      assert forall i :: 0 <= i < |front| ==> front[i] == xs[i];
      if !xs[|xs| - 1].Fin? && Finite(front) == [] {
        assert forall i :: 0 <= i < |xs| ==> !xs[i].Fin? by {
          forall i | 0 <= i < |xs|
            ensures !xs[i].Fin?
          {
            if i < |front| {
              assert !front[i].Fin?;
            }
          }
        }
      }
    }
  }

  /** Bounds on the finite cells carry over to the averaged values. */
  lemma FiniteBounded(xs: seq<Float>, lo: real, hi: real)
    requires forall i :: 0 <= i < |xs| && xs[i].Fin? ==> lo <= xs[i].v <= hi
    ensures forall k :: 0 <= k < |Finite(xs)| ==> lo <= Finite(xs)[k] <= hi
  {
    FiniteMembers(xs);
    forall k | 0 <= k < |Finite(xs)|
      ensures lo <= Finite(xs)[k] <= hi
    {
      assert Finite(xs)[k] in Finite(xs);
      assert Fin(Finite(xs)[k]) in xs;
    }
  }
}
