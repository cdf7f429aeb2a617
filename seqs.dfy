/** Sequence helpers shared by the models: concatenation of a list of
    lists, and Python's `range` with a step. */
module Seqs {
  function Flatten<T>(ss: seq<seq<T>>): seq<T> {
    if ss == [] then [] else Flatten(ss[..|ss| - 1]) + ss[|ss| - 1]
  }

  lemma FlattenSnoc<T>(ss: seq<seq<T>>, i: nat)
    requires i < |ss|
    ensures Flatten(ss[..i + 1]) == Flatten(ss[..i]) + ss[i]
  {
    assert ss[..i + 1][..i] == ss[..i];
  }

  /** An accumulator holding `base` and the first `i` lists, extended by
      list `i`, holds the first `i + 1`. */
  lemma FlattenExtend<T>(base: seq<T>, ss: seq<seq<T>>, i: nat, acc: seq<T>)
    requires i < |ss| && acc == base + Flatten(ss[..i])
    ensures acc + ss[i] == base + Flatten(ss[..i + 1])
  {
    FlattenSnoc(ss, i);
  }

  /** `range(lo, hi, step)` for a positive step. */
  function Range(lo: int, hi: int, step: nat): (r: seq<int>)
    requires step > 0
    ensures forall k :: 0 <= k < |r| ==> lo <= r[k] < hi
    ensures forall k :: 0 < k < |r| ==> r[k] == r[k - 1] + step
    ensures r != [] ==> r[0] == lo
    ensures r == [] <==> lo >= hi
    decreases hi - lo
  {
    if lo >= hi then [] else [lo] + Range(lo + step, hi, step)
  }

  /** `range(lo, hi, step)` for a negative step: it counts down from
      `lo` while the value stays above `hi`. */
  function RangeDown(lo: int, hi: int, step: int): (r: seq<int>)
    requires step < 0
    ensures forall k :: 0 <= k < |r| ==> hi < r[k] <= lo
    ensures forall k :: 0 < k < |r| ==> r[k] == r[k - 1] + step
    ensures r != [] ==> r[0] == lo
    ensures r == [] <==> lo <= hi
    decreases lo - hi
  {
    if lo <= hi then [] else [lo] + RangeDown(lo + step, hi, step)
  }

  /** `range(0, n - 1, step)` with a negative step is empty, except for
      `n == 0`, where it is `[0]`. */
  lemma NegativeStrideRange(n: nat, step: int)
    requires step < 0
    ensures RangeDown(0, n - 1, step) == if n == 0 then [0] else []
  {
    if n == 0 {
      assert RangeDown(step, -1, step) == [];
    }
  }

  /** Successive starts are at least one step apart. */
  lemma {:induction false} RangeSpaced(lo: int, hi: int, step: nat, k: nat, m: nat)
    requires step > 0 && k < m < |Range(lo, hi, step)|
    ensures Range(lo, hi, step)[m] >= Range(lo, hi, step)[k] + step
    decreases m - k
  {
    if m > k + 1 {
      RangeSpaced(lo, hi, step, k, m - 1);
    }
  }

  /** The blocks `[j0, min(j0 + step, hi))` for `j0` in `range(lo, hi,
      step)` cover `[lo, hi)`: `k` is the block of `y`. */
  lemma {:induction false} RangeBlockOf(lo: int, hi: int, step: nat, y: int) returns (k: nat)
    requires step > 0 && lo <= y < hi
    ensures k < |Range(lo, hi, step)|
    ensures Range(lo, hi, step)[k] <= y < Range(lo, hi, step)[k] + step
    decreases hi - lo
  {
    var rest := Range(lo + step, hi, step);
    if y < lo + step {
      k := 0;
    } else {
      var k' := RangeBlockOf(lo + step, hi, step, y);
      assert Range(lo, hi, step)[k' + 1] == rest[k'];
      k := k' + 1;
    }
  }

  /** ... and no position lies in two of them. */
  lemma RangeBlocksDisjoint(lo: int, hi: int, step: nat, y: int, k: nat, m: nat)
    requires step > 0 && k < |Range(lo, hi, step)| && m < |Range(lo, hi, step)|
    requires Range(lo, hi, step)[k] <= y < Range(lo, hi, step)[k] + step
    requires Range(lo, hi, step)[m] <= y < Range(lo, hi, step)[m] + step
    ensures k == m
  {
    if k < m {
      RangeSpaced(lo, hi, step, k, m);
    } else if m < k {
      RangeSpaced(lo, hi, step, m, k);
    }
  }
}
