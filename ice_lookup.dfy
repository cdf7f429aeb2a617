/** The SST → (ice cover, ice thickness, ice type) lookup of ml/model.py
    (`SstIceLookup`): SST bins learned from the initial condition, each
    holding the mean cover and thickness of its samples, empty bins
    carrying the previous bin forward. Grids are flattened (the source
    `ravel`s them and reshapes at the end). */
module IceLookup {
  import opened Wrappers
  import opened Numeric

  // ---------------------------------------------------------------------
  // Thickness classes
  // ---------------------------------------------------------------------

  /** The condition of the p-th masked assignment (p = 1..4); NaN fails
      every comparison. */
  predicate InBand(p: nat, x: Float) {
    x.Fin? &&
    match p
    case 1 => 0.0 < x.v < 10.0
    case 2 => 10.0 <= x.v < 30.0
    case 3 => 30.0 <= x.v < 70.0
    case 4 => x.v >= 70.0
    case _ => false
  }

  function BandLabel(p: nat): real {
    match p
    case 1 => 10.0
    case 2 => 40.0
    case 3 => 70.0
    case _ => 95.0
  }

  /** The value of a cell after the first p assignments over zeros. */
  function AfterPasses(p: nat, x: Float): real {
    if p == 0 then 0.0 else if InBand(p, x) then BandLabel(p) else AfterPasses(p - 1, x)
  }

  /** `_classify_from_thickness` for one cell (thickness in cm). */
  function ClassifyThickness(x: Float): (t: real)
    ensures t in {0.0, 10.0, 40.0, 70.0, 95.0}
    ensures t == 0.0 <==> !x.Fin? || x.v <= 0.0
    ensures t == 10.0 <==> x.Fin? && 0.0 < x.v < 10.0
    ensures t == 40.0 <==> x.Fin? && 10.0 <= x.v < 30.0
    ensures t == 70.0 <==> x.Fin? && 30.0 <= x.v < 70.0
    ensures t == 95.0 <==> x.Fin? && x.v >= 70.0
  {
    assert AfterPasses(1, x) == if InBand(1, x) then 10.0 else 0.0;
    assert AfterPasses(2, x) == if InBand(2, x) then 40.0 else AfterPasses(1, x);
    assert AfterPasses(3, x) == if InBand(3, x) then 70.0 else AfterPasses(2, x);
    AfterPasses(4, x)
  }

  /** Thicker ice never gets a lower class. */
  lemma ClassifyMonotone(a: real, b: real)
    requires a <= b
    ensures ClassifyThickness(Fin(a)) <= ClassifyThickness(Fin(b))
  {
  }

  /** One masked assignment `t[mask] = label`. */
  method AssignBand(t: array<Float>, thick: seq<Float>, p: nat)
    requires t.Length == |thick|
    modifies t
    ensures forall k :: 0 <= k < t.Length ==>
              t[k] == if InBand(p, thick[k]) then Fin(BandLabel(p)) else old(t[k])
  {
    for k := 0 to t.Length
      invariant forall m :: 0 <= m < k ==>
                  t[m] == if InBand(p, thick[m]) then Fin(BandLabel(p)) else old(t[m])
      invariant forall m :: k <= m < t.Length ==> t[m] == old(t[m])
    {
      if InBand(p, thick[k]) {
        t[k] := Fin(BandLabel(p));
      }
    }
  }

  /** `_classify_from_thickness`: zeros, then the four assignments in
      order. */
  method ClassifyFromThickness(thick: seq<Float>) returns (types: seq<Float>)
    ensures |types| == |thick|
    ensures forall k :: 0 <= k < |thick| ==> types[k] == Fin(ClassifyThickness(thick[k]))
  {
    var t := new Float[|thick|](_ => Fin(0.0));
    for p := 1 to 5
      invariant forall k :: 0 <= k < t.Length ==> t[k] == Fin(AfterPasses(p - 1, thick[k]))
    {
      AssignBand(t, thick, p);
    }
    types := t[..];
  }

  // ---------------------------------------------------------------------
  // Training samples and bins
  // ---------------------------------------------------------------------

  datatype Sample = Sample(sst: real, cover: real, thick: real)

  /** The cells where SST, cover and thickness are all finite, in order. */
  function Samples(sst: seq<Float>, cover: seq<Float>, thick: seq<Float>): seq<Sample>
    requires |sst| == |cover| == |thick|
  {
    if sst == [] then []
    else
      var n := |sst| - 1;
      Samples(sst[..n], cover[..n], thick[..n]) +
      (if sst[n].Fin? && cover[n].Fin? && thick[n].Fin? then [Sample(sst[n].v, cover[n].v, thick[n].v)] else [])
  }

  function Ssts(ss: seq<Sample>): seq<real> { seq(|ss|, i requires 0 <= i < |ss| => ss[i].sst) }
  function Covers(ss: seq<Sample>): seq<real> { seq(|ss|, i requires 0 <= i < |ss| => ss[i].cover) }
  function Thicks(ss: seq<Sample>): seq<real> { seq(|ss|, i requires 0 <= i < |ss| => ss[i].thick) }

  function MinOf(xs: seq<real>): (m: real)
    requires xs != []
    ensures forall i :: 0 <= i < |xs| ==> m <= xs[i]
    ensures m in xs
  {
    if |xs| == 1 then xs[0]
    else
      var rest := MinOf(xs[..|xs| - 1]);
      if rest <= xs[|xs| - 1] then rest else xs[|xs| - 1]
  }

  function MaxOf(xs: seq<real>): (m: real)
    requires xs != []
    ensures forall i :: 0 <= i < |xs| ==> xs[i] <= m
    ensures m in xs
  {
    if |xs| == 1 then xs[0]
    else
      var rest := MaxOf(xs[..|xs| - 1]);
      if rest >= xs[|xs| - 1] then rest else xs[|xs| - 1]
  }

  function Ceil(x: real): int { -((-x).Floor) }

  /** `floor(min / w)` and `ceil(max / w)`: the edges run over the whole
      multiples of the bin width between them. */
  function KMin(ss: seq<Sample>, w: real): int
    requires ss != [] && w > 0.0
  {
    (MinOf(Ssts(ss)) / w).Floor
  }

  function KMax(ss: seq<Sample>, w: real): int
    requires ss != [] && w > 0.0
  {
    Ceil(MaxOf(Ssts(ss)) / w)
  }

  lemma KMinAtMostKMax(ss: seq<Sample>, w: real)
    requires ss != [] && w > 0.0
    ensures KMin(ss, w) <= KMax(ss, w)
  {
    DivMonotone(MinOf(Ssts(ss)), MaxOf(Ssts(ss)), w);
  }

  /** The number of bins. As written, `np.arange(s_min, s_max + w, w)`
      gives the edges `s_min, …, s_max`, so one bin fewer than edges and
      no bin at all when `s_min == s_max`; the corrected binning has at
      least one. */
  function BinCount(ss: seq<Sample>, w: real, closedTop: bool): nat
    requires ss != [] && w > 0.0
  {
    KMinAtMostKMax(ss, w);
    if closedTop && KMax(ss, w) == KMin(ss, w) then 1 else KMax(ss, w) - KMin(ss, w)
  }

  /** The bin edges, exactly `s_min + i·w`. */
  function Edges(ss: seq<Sample>, w: real, closedTop: bool): (e: seq<real>)
    requires ss != [] && w > 0.0
    ensures |e| == BinCount(ss, w, closedTop) + 1
  {
    seq(BinCount(ss, w, closedTop) + 1, i => ((KMin(ss, w) + i) as real) * w)
  }

  /** `(sst >= lo) & (sst < hi)`; the corrected binning also closes the
      last bin at its upper edge, as `np.digitize` plus clipping does when
      the lookup is applied. */
  predicate InBin(s: real, edges: seq<real>, i: nat, closedTop: bool)
    requires i + 1 < |edges|
  {
    (edges[i] <= s < edges[i + 1]) || (closedTop && i + 2 == |edges| && s == edges[i + 1])
  }

  function Selected(ss: seq<Sample>, edges: seq<real>, i: nat, closedTop: bool): (sel: seq<Sample>)
    requires i + 1 < |edges|
    ensures forall k :: 0 <= k < |sel| ==> sel[k] in ss && InBin(sel[k].sst, edges, i, closedTop)
    ensures forall k :: 0 <= k < |ss| && InBin(ss[k].sst, edges, i, closedTop) ==> ss[k] in sel
  {
    if ss == [] then []
    else
      var front := Selected(ss[..|ss| - 1], edges, i, closedTop);
      var s := ss[|ss| - 1];
      assert forall k :: 0 <= k < |ss| - 1 ==> ss[k] == ss[..|ss| - 1][k];
      front + (if InBin(s.sst, edges, i, closedTop) then [s] else [])
  }

  /** Every sample in the bin is selected as often as it occurs, and no
      other sample is selected; the means therefore weigh repeated samples. */
  lemma {:induction false} SelectedMultiplicity(ss: seq<Sample>, edges: seq<real>, i: nat, closedTop: bool, x: Sample)
    requires i + 1 < |edges|
    ensures multiset(Selected(ss, edges, i, closedTop))[x] ==
            if InBin(x.sst, edges, i, closedTop) then multiset(ss)[x] else 0
    decreases |ss|
  {
    if ss != [] {
      var front := ss[..|ss| - 1];
      assert ss == front + [ss[|ss| - 1]];
      SelectedMultiplicity(front, edges, i, closedTop, x);
    }
  }

  /** The selection keeps input order: selecting from a concatenation
      selects from each part in turn. */
  lemma {:induction false} SelectedAppend(xs: seq<Sample>, ys: seq<Sample>, edges: seq<real>, i: nat, closedTop: bool)
    requires i + 1 < |edges|
    ensures Selected(xs + ys, edges, i, closedTop) == Selected(xs, edges, i, closedTop) + Selected(ys, edges, i, closedTop)
    decreases |ys|
  {
    if ys == [] {
      assert xs + ys == xs;
    } else {
      var ys', y := ys[..|ys| - 1], ys[|ys| - 1];
      var t := if InBin(y.sst, edges, i, closedTop) then [y] else [];
      assert (xs + ys)[..|xs + ys| - 1] == xs + ys';
      assert (xs + ys)[|xs + ys| - 1] == y;
      assert Selected(xs + ys, edges, i, closedTop) == Selected(xs + ys', edges, i, closedTop) + t;
      assert Selected(ys, edges, i, closedTop) == Selected(ys', edges, i, closedTop) + t;
      SelectedAppend(xs, ys', edges, i, closedTop);
    }
  }

  /** The means of a bin's samples, or nothing for an empty bin. */
  function BinMeans(ss: seq<Sample>, edges: seq<real>, i: nat, closedTop: bool): Option<(real, real)>
    requires i + 1 < |edges|
  {
    var sel := Selected(ss, edges, i, closedTop);
    if sel == [] then None else Some((Mean(Covers(sel)), Mean(Thicks(sel))))
  }

  function Entries(ss: seq<Sample>, edges: seq<real>, closedTop: bool): (es: seq<Option<(real, real)>>)
    requires |edges| >= 1
    ensures |es| == |edges| - 1
  {
    seq(|edges| - 1, i requires 0 <= i < |edges| - 1 => BinMeans(ss, edges, i, closedTop))
  }

  /** The table with every empty bin carrying its predecessor forward. */
  function CarryForward(es: seq<Option<(real, real)>>): (lut: seq<(real, real)>)
    ensures |lut| == |es|
  {
    if es == [] then []
    else
      var front := CarryForward(es[..|es| - 1]);
      front + [match es[|es| - 1]
               case Some(m) => m
               case None => if front == [] then (0.0, 0.0) else front[|front| - 1]]
  }

  lemma CarryForwardPrefix(es: seq<Option<(real, real)>>, i: nat)
    requires i <= |es|
    ensures CarryForward(es[..i]) == CarryForward(es)[..i]
    decreases |es| - i
  {
    if i < |es| {
      CarryForwardPrefix(es, i + 1);
      assert es[..i + 1][..i] == es[..i];
    } else {
      assert es[..i] == es;
    }
  }

  /** One entry of the table: a filled bin's means, else the previous
      entry, else (0, 0). */
  lemma CarryForwardAt(es: seq<Option<(real, real)>>, i: nat)
    requires i < |es|
    ensures CarryForward(es)[i] ==
              match es[i]
              case Some(m) => m
              case None => if i == 0 then (0.0, 0.0) else CarryForward(es)[i - 1]
  {
    CarryForwardPrefix(es, i + 1);
    CarryForwardPrefix(es, i);
    assert es[..i + 1][..i] == es[..i];
  }

  /** Each table entry is the means of the last non-empty bin at or
      before it (`j`), or (0, 0) when every bin so far is empty (`j` is
      -1). */
  lemma {:induction false} CarryForwardLastFilled(es: seq<Option<(real, real)>>, i: nat) returns (j: int)
    requires i < |es|
    ensures -1 <= j <= i
    ensures forall m :: j < m <= i ==> es[m].None?
    ensures j >= 0 ==> es[j] == Some(CarryForward(es)[i])
    ensures j == -1 ==> CarryForward(es)[i] == (0.0, 0.0)
    decreases i
  {
    CarryForwardAt(es, i);
    if es[i].Some? {
      j := i;
    } else if i == 0 {
      j := -1;
    } else {
      j := CarryForwardLastFilled(es, i - 1);
    }
  }

  datatype Lookup = Lookup(edges: seq<real>, cover: seq<real>, thick: seq<real>)

  function TableOf(lut: seq<(real, real)>): Lookup {
    Lookup([], seq(|lut|, i requires 0 <= i < |lut| => lut[i].0), seq(|lut|, i requires 0 <= i < |lut| => lut[i].1))
  }

  /** The lookup `from_initial` builds from the training samples. */
  function Learned(ss: seq<Sample>, w: real, closedTop: bool): (l: Lookup)
    requires ss != [] && w > 0.0
    ensures l.edges == Edges(ss, w, closedTop)
    ensures |l.cover| == |l.thick| == |l.edges| - 1
  {
    var edges := Edges(ss, w, closedTop);
    TableOf(CarryForward(Entries(ss, edges, closedTop))).(edges := edges)
  }

  const NoTrainingPoints: string := "No valid training points for SST→ice mapping"

  /** The bin loop of `from_initial`: zero-initialised tables, each bin
      written with its means or with `prev`. */
  method FillTables(ss: seq<Sample>, edges: seq<real>, closedTop: bool) returns (covers: seq<real>, thicks: seq<real>)
    requires |edges| >= 1
    ensures |covers| == |thicks| == |edges| - 1
    ensures forall k :: 0 <= k < |covers| ==>
              (covers[k], thicks[k]) == CarryForward(Entries(ss, edges, closedTop))[k]
  {
    var nb := |edges| - 1;
    ghost var es := Entries(ss, edges, closedTop);
    ghost var lut := CarryForward(es);
    var coverLut := new real[nb](_ => 0.0);
    var thickLut := new real[nb](_ => 0.0);
    var prev := (0.0, 0.0);
    for i := 0 to nb
      invariant forall k :: 0 <= k < i ==> coverLut[k] == lut[k].0 && thickLut[k] == lut[k].1
      invariant prev == if i == 0 then (0.0, 0.0) else lut[i - 1]
    {
      var entry, filled := BinValue(ss, edges, closedTop, i, prev);
      coverLut[i], thickLut[i] := entry.0, entry.1;
      if filled {
        prev := entry;
      }
    }
    covers, thicks := coverLut[..], thickLut[..];
  }

  /** Bin i: the means of its samples when it has any, else `prev`. */
  method BinValue(ss: seq<Sample>, edges: seq<real>, closedTop: bool, i: nat, prev: (real, real))
    returns (entry: (real, real), filled: bool)
    requires i + 1 < |edges|
    requires prev == if i == 0 then (0.0, 0.0) else CarryForward(Entries(ss, edges, closedTop))[i - 1]
    ensures entry == CarryForward(Entries(ss, edges, closedTop))[i]
    ensures filled <==> Selected(ss, edges, i, closedTop) != []
    ensures !filled ==> entry == prev
  {
    var sel := Selected(ss, edges, i, closedTop);
    filled := sel != [];
    entry := if filled then (Mean(Covers(sel)), Mean(Thicks(sel))) else prev;
    EntryIsTable(ss, edges, closedTop, i, prev);
  }

  /** Bin i of the loop writes entry i of the carried-forward table. */
  lemma EntryIsTable(ss: seq<Sample>, edges: seq<real>, closedTop: bool, i: nat, prev: (real, real))
    requires i + 1 < |edges|
    requires prev == if i == 0 then (0.0, 0.0) else CarryForward(Entries(ss, edges, closedTop))[i - 1]
    ensures var sel := Selected(ss, edges, i, closedTop);
            (if sel != [] then (Mean(Covers(sel)), Mean(Thicks(sel))) else prev)
              == CarryForward(Entries(ss, edges, closedTop))[i]
  {
    var es := Entries(ss, edges, closedTop);
    CarryForwardAt(es, i);
    assert es[i] == BinMeans(ss, edges, i, closedTop);
  }

  /** Two columns that agree entry by entry with a table are that table. */
  lemma TableOfColumns(lut: seq<(real, real)>, covers: seq<real>, thicks: seq<real>)
    requires |covers| == |thicks| == |lut|
    requires forall k :: 0 <= k < |lut| ==> (covers[k], thicks[k]) == lut[k]
    ensures TableOf(lut).cover == covers && TableOf(lut).thick == thicks
  {
  }

  /** `from_initial` with the corrected binning. */
  method FromInitial(sst: seq<Float>, cover: seq<Float>, thick: seq<Float>, binWidth: real)
    returns (r: Result<Lookup, string>)
    requires |sst| == |cover| == |thick|
    requires binWidth > 0.0
    ensures Samples(sst, cover, thick) == [] <==> r == Err(NoTrainingPoints)
    ensures r.Ok? ==> r.value == Learned(Samples(sst, cover, thick), binWidth, true)
  {
    var ss := Samples(sst, cover, thick);
    if |ss| == 0 {
      return Err(NoTrainingPoints);
    }
    var edges := Edges(ss, binWidth, true);
    var covers, thicks := FillTables(ss, edges, true);
    TableOfColumns(CarryForward(Entries(ss, edges, true)), covers, thicks);
    r := Ok(Lookup(edges, covers, thicks));
  }

  // ---------------------------------------------------------------------
  // Bin arithmetic
  // ---------------------------------------------------------------------

  lemma DivMonotone(a: real, b: real, w: real)
    requires a <= b && w > 0.0
    ensures a / w <= b / w
  {
    assert b / w - a / w == (b - a) / w;
  }

  lemma MulBelow(k: real, s: real, w: real)
    requires w > 0.0
    ensures k * w <= s <==> k <= s / w
    ensures k * w < s <==> k < s / w
  {
    assert s / w * w == s;
    assert k * w - s == (k - s / w) * w;
  }

  lemma ScaleLe(a: int, b: int, w: real)
    requires a <= b && w > 0.0
    ensures (a as real) * w <= (b as real) * w
  {
    assert (b as real) * w - (a as real) * w == ((b - a) as real) * w;
  }

  lemma ScaleLt(a: int, b: int, w: real)
    requires a < b && w > 0.0
    ensures (a as real) * w < (b as real) * w
  {
    assert (b as real) * w - (a as real) * w == ((b - a) as real) * w;
  }

  lemma EdgesIncrease(ss: seq<Sample>, w: real, closedTop: bool, i: nat, j: nat)
    requires ss != [] && w > 0.0
    requires i < j < |Edges(ss, w, closedTop)|
    ensures Edges(ss, w, closedTop)[i] < Edges(ss, w, closedTop)[j]
  {
    ScaleLt(KMin(ss, w) + i, KMin(ss, w) + j, w);
  }

  /** The bin of an SST value: `floor(s / w) - floor(min / w)`, the top
      value going into the last bin. */
  function BinOf(ss: seq<Sample>, w: real, s: real): int
    requires ss != [] && w > 0.0
  {
    var e := Edges(ss, w, true);
    if s == e[|e| - 1] then |e| - 2 else (s / w).Floor - KMin(ss, w)
  }

  /** Every training SST lies between the first and the last corrected
      edge. */
  lemma SampleBetweenEdges(ss: seq<Sample>, w: real, s: real)
    requires ss != [] && w > 0.0
    requires s in Ssts(ss)
    ensures var e := Edges(ss, w, true);
            e[0] <= s <= e[|e| - 1]
  {
    SampleWithin(Ssts(ss), s);
    var n := EdgeEnds(ss, w);
    BetweenScaled(MinOf(Ssts(ss)), MaxOf(Ssts(ss)), s, w, KMin(ss, w), KMax(ss, w), n);
  }

  lemma SampleWithin(xs: seq<real>, s: real)
    requires s in xs
    ensures MinOf(xs) <= s <= MaxOf(xs)
  {
    var m :| 0 <= m < |xs| && xs[m] == s;
  }

  /** The corrected edges run from `KMin·w` to `n·w` with `n >= KMax`. */
  lemma EdgeEnds(ss: seq<Sample>, w: real) returns (n: int)
    requires ss != [] && w > 0.0
    ensures var e := Edges(ss, w, true);
            e[0] == (KMin(ss, w) as real) * w && e[|e| - 1] == (n as real) * w && KMax(ss, w) <= n
    ensures n == KMin(ss, w) + |Edges(ss, w, true)| - 1
  {
    KMinAtMostKMax(ss, w);
    n := KMin(ss, w) + BinCount(ss, w, true);
  }

  /** `floor(lo / w)·w <= s <= n·w` for `lo <= s <= hi` and
      `ceil(hi / w) <= n`. */
  lemma BetweenScaled(lo: real, hi: real, s: real, w: real, kmin: int, kmax: int, n: int)
    requires w > 0.0 && lo <= s <= hi
    requires kmin == (lo / w).Floor && kmax == Ceil(hi / w) && kmax <= n
    ensures (kmin as real) * w <= s <= (n as real) * w
  {
    MulBelow(kmin as real, lo, w);
    MulBelow(kmax as real, hi, w);
    ScaleLe(kmax, n, w);
  }

  /** Below the top edge, bin i holds exactly the values whose
      `floor(s / w)` is `floor(min / w) + i`. */
  lemma InBinBelowTop(ss: seq<Sample>, w: real, s: real, i: nat)
    requires ss != [] && w > 0.0
    requires i + 1 < |Edges(ss, w, true)|
    requires s != Edges(ss, w, true)[|Edges(ss, w, true)| - 1]
    ensures InBin(s, Edges(ss, w, true), i, true) <==> (s / w).Floor == KMin(ss, w) + i
  {
    var k := KMin(ss, w) + i;
    EdgeAt(ss, w, true, i);
    EdgeAt(ss, w, true, i + 1);
    UnitBin(s, w, k);
  }

  lemma EdgeAt(ss: seq<Sample>, w: real, closedTop: bool, i: nat)
    requires ss != [] && w > 0.0 && i < |Edges(ss, w, closedTop)|
    ensures Edges(ss, w, closedTop)[i] == ((KMin(ss, w) + i) as real) * w
  {
    var n := BinCount(ss, w, closedTop) + 1;
    var k := KMin(ss, w);
    assert Edges(ss, w, closedTop) == seq(n, j => ((k + j) as real) * w);
  }

  /** `[k·w, (k+1)·w)` holds exactly the values with `floor(s / w) == k`. */
  lemma UnitBin(s: real, w: real, k: int)
    requires w > 0.0
    ensures (k as real) * w <= s < ((k + 1) as real) * w <==> (s / w).Floor == k
  {
    MulBelow(k as real, s, w);
    MulBelow((k + 1) as real, s, w);
    FloorIs(s / w, k);
  }

  /** `k·w <= s < n·w` puts `floor(s / w)` in `[k, n)`. */
  lemma FloorBetween(s: real, w: real, k: int, n: int)
    requires w > 0.0 && (k as real) * w <= s < (n as real) * w
    ensures k <= (s / w).Floor < n
  {
    MulBelow(k as real, s, w);
    MulBelow(n as real, s, w);
  }

  lemma FloorIs(x: real, k: int)
    ensures x.Floor == k <==> k as real <= x < (k + 1) as real
  {
  }

  /** The top edge belongs to the last bin only. */
  lemma InBinAtTop(ss: seq<Sample>, w: real, i: nat)
    requires ss != [] && w > 0.0
    requires i + 1 < |Edges(ss, w, true)|
    ensures var e := Edges(ss, w, true);
            InBin(e[|e| - 1], e, i, true) <==> i + 2 == |e|
  {
    var e := Edges(ss, w, true);
    if i + 2 < |e| {
      EdgesIncrease(ss, w, true, i + 1, |e| - 1);
    }
  }

  /** With the corrected binning every training sample falls into exactly
      one bin. */
  lemma CorrectedBinsPartition(ss: seq<Sample>, w: real, s: real)
    requires ss != [] && w > 0.0
    requires s in Ssts(ss)
    ensures var e := Edges(ss, w, true);
            0 <= BinOf(ss, w, s) < |e| - 1 &&
            forall i :: 0 <= i < |e| - 1 ==> (InBin(s, e, i, true) <==> i == BinOf(ss, w, s))
  {
    var e := Edges(ss, w, true);
    SampleBetweenEdges(ss, w, s);
    if s != e[|e| - 1] {
      var n := EdgeEnds(ss, w);
      FloorBetween(s, w, KMin(ss, w), n);
      forall i | 0 <= i < |e| - 1
        ensures InBin(s, e, i, true) <==> i == BinOf(ss, w, s)
      {
        InBinBelowTop(ss, w, s, i);
      }
    } else {
      forall i | 0 <= i < |e| - 1
        ensures InBin(s, e, i, true) <==> i == BinOf(ss, w, s)
      {
        InBinAtTop(ss, w, i);
      }
    }
  }

  /** As written, a sample at the top edge `s_max` (an SST that is a whole
      multiple of the bin width, the warmest of the samples) lies in no
      bin: the last bin stops just below it. */
  lemma TopSampleLostAsWritten(ss: seq<Sample>, w: real)
    requires ss != [] && w > 0.0
    requires MaxOf(Ssts(ss)) == (KMax(ss, w) as real) * w
    ensures var e := Edges(ss, w, false);
            forall i :: 0 <= i < |e| - 1 ==> !InBin(MaxOf(Ssts(ss)), e, i, false)
  {
    OpenTopEdge(ss, w);
    EdgesSorted(ss, w, false);
    LastEdgeInNoBin(Edges(ss, w, false), MaxOf(Ssts(ss)));
  }

  /** As written, the last edge is `ceil(s_max / w)·w`. */
  lemma OpenTopEdge(ss: seq<Sample>, w: real)
    requires ss != [] && w > 0.0
    ensures var e := Edges(ss, w, false); e[|e| - 1] == (KMax(ss, w) as real) * w
  {
    KMinAtMostKMax(ss, w);
    var e := Edges(ss, w, false);
    var n := KMin(ss, w) + BinCount(ss, w, false);
    assert n == KMax(ss, w);
    assert e[|e| - 1] == (n as real) * w;
  }

  /** Under half-open bins, the last edge of increasing edges lies in none
      of them. */
  lemma LastEdgeInNoBin(e: seq<real>, x: real)
    requires Increasing(e) && e != [] && x == e[|e| - 1]
    ensures forall i :: 0 <= i < |e| - 1 ==> !InBin(x, e, i, false)
  {
    forall i | 0 <= i < |e| - 1
      ensures !InBin(x, e, i, false)
    {
      assert e[i + 1] <= e[|e| - 1];
    }
  }

  /** All samples at 0 °C with the default 0.25 width: no bins at all. */
  lemma SingleEdgeAsWritten(c: real, t: real)
    ensures BinCount([Sample(0.0, c, t)], 0.25, false) == 0
    ensures BinCount([Sample(0.0, c, t)], 0.25, true) == 1
  {
    var ss := [Sample(0.0, c, t)];
    assert Ssts(ss) == [0.0];
  }

  /** The learned table is bounded by the training values: cover in
      [0, 100] gives a table in [0, 100], and likewise for thickness. */
  lemma LearnedBounds(ss: seq<Sample>, w: real, closedTop: bool, lo: real, hi: real, tlo: real, thi: real)
    requires ss != [] && w > 0.0
    requires lo <= 0.0 <= hi && tlo <= 0.0 <= thi
    requires forall x :: x in ss ==> lo <= x.cover <= hi && tlo <= x.thick <= thi
    ensures var l := Learned(ss, w, closedTop);
            (forall i :: 0 <= i < |l.cover| ==> lo <= l.cover[i] <= hi) &&
            (forall i :: 0 <= i < |l.thick| ==> tlo <= l.thick[i] <= thi)
  {
    var edges := Edges(ss, w, closedTop);
    var es := Entries(ss, edges, closedTop);
    var lut := CarryForward(es);
    forall i | 0 <= i < |lut|
      ensures lo <= lut[i].0 <= hi && tlo <= lut[i].1 <= thi
    {
      var j := CarryForwardLastFilled(es, i);
      if j >= 0 {
        BinMeansBounds(ss, edges, j, closedTop, lo, hi, tlo, thi);
      }
    }
  }

  lemma BinMeansBounds(ss: seq<Sample>, edges: seq<real>, j: nat, closedTop: bool,
                       lo: real, hi: real, tlo: real, thi: real)
    requires j + 1 < |edges|
    requires forall x :: x in ss ==> lo <= x.cover <= hi && tlo <= x.thick <= thi
    ensures BinMeans(ss, edges, j, closedTop).Some? ==>
              var m := BinMeans(ss, edges, j, closedTop).value;
              lo <= m.0 <= hi && tlo <= m.1 <= thi
  {
    var sel := Selected(ss, edges, j, closedTop);
    if sel != [] {
      assert forall k :: 0 <= k < |sel| ==> sel[k] in ss;
      MeanBounds(Covers(sel), lo, hi);
      MeanBounds(Thicks(sel), tlo, thi);
    }
  }

  // ---------------------------------------------------------------------
  // Applying the lookup
  // ---------------------------------------------------------------------

  /** `np.digitize(x, edges)` for increasing edges: how many edges are at
      most x. */
  function CountAtMost(edges: seq<real>, x: real): (n: nat)
    ensures n <= |edges|
  {
    if edges == [] then 0
    else CountAtMost(edges[..|edges| - 1], x) + (if edges[|edges| - 1] <= x then 1 else 0)
  }

  predicate Increasing(edges: seq<real>) {
    forall i, j :: 0 <= i < j < |edges| ==> edges[i] < edges[j]
  }

  lemma {:induction false} CountAtMostSorted(edges: seq<real>, x: real, i: int)
    requires Increasing(edges)
    requires -1 <= i < |edges|
    requires (i == -1 || edges[i] <= x) && (i + 1 == |edges| || x < edges[i + 1])
    ensures CountAtMost(edges, x) == i + 1
    decreases |edges|
  {
    if edges != [] {
      var front := edges[..|edges| - 1];
      if i + 1 == |edges| {
        if i >= 1 {
          assert front[i - 1] <= x;
        }
        CountAtMostSorted(front, x, i - 1);
      } else {
        assert x < edges[|edges| - 1];
        CountAtMostSorted(front, x, i);
      }
    }
  }

  function Clip(i: int, lo: int, hi: int): int {
    if i < lo then lo else if i > hi then hi else i
  }

  /** The table row used for an SST value: `clip(digitize(x) - 1, 0, N - 1)`. */
  function BinIndex(l: Lookup, x: real): (i: int)
    requires |l.cover| > 0
    ensures 0 <= i < |l.cover|
  {
    Clip(CountAtMost(l.edges, x) - 1, 0, |l.cover| - 1)
  }

  /** A learned lookup (corrected binning) has increasing edges and one
      row per bin, at least one; so `BinIndexSorted` applies to it. */
  lemma LearnedSorted(ss: seq<Sample>, w: real)
    requires ss != [] && w > 0.0
    ensures var l := Learned(ss, w, true);
            Increasing(l.edges) && |l.cover| > 0 && |l.edges| == |l.cover| + 1
  {
    EdgesSorted(ss, w, true);
    KMinAtMostKMax(ss, w);
  }

  lemma EdgesSorted(ss: seq<Sample>, w: real, closedTop: bool)
    requires ss != [] && w > 0.0
    ensures Increasing(Edges(ss, w, closedTop))
  {
    var e := Edges(ss, w, closedTop);
    forall a, b | 0 <= a < b < |e|
      ensures e[a] < e[b]
    {
      EdgesIncrease(ss, w, closedTop, a, b);
    }
  }

  /** The row `BinIndex` picks for increasing edges and one row per bin. */
  lemma BinIndexSorted(l: Lookup, x: real, i: nat)
    requires Increasing(l.edges) && |l.cover| > 0 && |l.edges| == |l.cover| + 1
    requires i < |l.cover|
    ensures (x < l.edges[0] ==> BinIndex(l, x) == 0) &&
            (x >= l.edges[|l.edges| - 1] ==> BinIndex(l, x) == |l.cover| - 1) &&
            (InBin(x, l.edges, i, true) ==> BinIndex(l, x) == i)
  {
    var e := l.edges;
    if x < e[0] {
      CountAtMostSorted(e, x, -1);
    }
    if x >= e[|e| - 1] {
      CountAtMostSorted(e, x, |e| - 1);
    }
    if InBin(x, e, i, true) {
      if e[i] <= x < e[i + 1] {
        CountAtMostSorted(e, x, i);
      } else {
        CountAtMostSorted(e, x, |e| - 1);
      }
    }
  }

  /** One output cell of `apply_to_da`: cover, thickness and type from the
      row, all NaN where the SST is not finite. */
  function CellOutputs(l: Lookup, x: Float): (Float, Float, Float)
    requires |l.cover| > 0 && |l.thick| == |l.cover|
  {
    match x
    case NaN => (NaN, NaN, NaN)
    case Fin(s) =>
      var row := BinIndex(l, s);
      (Fin(l.cover[row]), Fin(l.thick[row]), Fin(ClassifyThickness(Fin(l.thick[row]))))
  }

  const EmptyTableIndex: string := "index -1 is out of bounds for axis 0 with size 0"

  /** `apply_to_da`: gather the rows, classify the thicknesses, then mask
      the non-finite SST cells. An empty table makes every index -1. */
  method ApplyToDa(l: Lookup, sst: seq<Float>) returns (r: Result<(seq<Float>, seq<Float>, seq<Float>), string>)
    requires |l.thick| == |l.cover|
    ensures r.Err? <==> |l.cover| == 0 && |sst| > 0
    ensures r.Err? ==> r.error == EmptyTableIndex
    ensures r.Ok? && |l.cover| > 0 ==>
              |r.value.0| == |sst| && |r.value.1| == |sst| && |r.value.2| == |sst| &&
              forall k :: 0 <= k < |sst| ==> (r.value.0[k], r.value.1[k], r.value.2[k]) == CellOutputs(l, sst[k])
    ensures r.Ok? && |l.cover| == 0 ==> r.value == ([], [], [])
  {
    var n := |sst|;
    if |l.cover| == 0 {
      if n > 0 {
        return Err(EmptyTableIndex);
      }
      return Ok(([], [], []));
    }
    var coverVals := new Float[n](_ => NaN);
    var thickVals := new Float[n](_ => NaN);
    for k := 0 to n
      invariant forall m :: 0 <= m < k && sst[m].Fin? ==>
                  coverVals[m] == CellOutputs(l, sst[m]).0 && thickVals[m] == CellOutputs(l, sst[m]).1
    {
      var row := if sst[k].Fin? then BinIndex(l, sst[k].v) else |l.cover| - 1;
      coverVals[k] := Fin(l.cover[row]);
      thickVals[k] := Fin(l.thick[row]);
    }
    var types := ClassifyFromThickness(thickVals[..]);
    var typeVals := new Float[n](k requires 0 <= k < n => types[k]);
    for k := 0 to n
      invariant forall m :: 0 <= m < k ==>
                  (coverVals[m], thickVals[m], typeVals[m]) == CellOutputs(l, sst[m])
      invariant forall m :: k <= m < n && sst[m].Fin? ==>
                  coverVals[m] == CellOutputs(l, sst[m]).0 && thickVals[m] == CellOutputs(l, sst[m]).1
      invariant forall m :: k <= m < n ==> typeVals[m] == Fin(ClassifyThickness(thickVals[m]))
    {
      if !sst[k].Fin? {
        coverVals[k] := NaN;
        thickVals[k] := NaN;
        typeVals[k] := NaN;
      }
    }
    return Ok((coverVals[..], thickVals[..], typeVals[..]));
  }
}
