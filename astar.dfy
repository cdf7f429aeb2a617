/** A* search over the 8-connected routing grid (src/data/api.js,
    `heuristic`, `getNeighbors`, `findPathAStar`). */
module AStar {
  import opened Wrappers
  import opened GridMap
  import opened CostGrid

  const DiagonalCost: real := 1.414

  // ---------------------------------------------------------------------
  // Heuristic
  // ---------------------------------------------------------------------

  /** Integer square root: the largest `r` with `r * r <= m`. */
  function ISqrt(m: nat): (r: nat)
    ensures r * r <= m < (r + 1) * (r + 1)
  {
    if m < 4 then (if m == 0 then 0 else 1)
    else
      var t := ISqrt(m / 4);
      DoubledRoot(m, t);
      var s := 2 * t;
      if (s + 1) * (s + 1) <= m then s + 1 else s
  }

  lemma DoubledRoot(m: nat, t: nat)
    requires t * t <= m / 4 < (t + 1) * (t + 1)
    ensures (2 * t) * (2 * t) <= m < (2 * t + 2) * (2 * t + 2)
  {
    var q := m / 4;
    assert m == 4 * q + m % 4;
    assert (2 * t) * (2 * t) == 4 * (t * t);
    assert (2 * t + 2) * (2 * t + 2) == 4 * ((t + 1) * (t + 1));
    assert q + 1 <= (t + 1) * (t + 1);
  }

  /** Resolution of the square root: the heuristic is exact to 2^-20. */
  const SqrtScale: nat := 1048576
  const SqrtScaleSquared: nat := 1099511627776

  /** Squared Euclidean distance in cell units. */
  function DistSquared(a: Cell, b: Cell): nat {
    (b.x - a.x) * (b.x - a.x) + (b.y - a.y) * (b.y - a.y)
  }

  /** `heuristic`: the Euclidean distance in cell units between two cells.
      `Math.sqrt` returns the nearest double; here the root is the largest
      multiple of 2^-20 not above the exact distance (see HeuristicBounds). */
  function Heuristic(a: Cell, b: Cell): (h: real)
    ensures h >= 0.0
    ensures Square(h) <= DistSquared(a, b) as real
  {
    RootBounds(DistSquared(a, b));
    Root(DistSquared(a, b))
  }

  /** The square root of `d2`, rounded down to a multiple of 2^-20. */
  function Root(d2: nat): real {
    ISqrt(d2 * SqrtScaleSquared) as real / SqrtScale as real
  }

  function Square(x: real): real {
    x * x
  }

  /** The heuristic is the Euclidean distance, to within 2^-20 below. */
  lemma HeuristicBounds(a: Cell, b: Cell)
    ensures Heuristic(a, b) >= 0.0
    ensures Square(Heuristic(a, b)) <= DistSquared(a, b) as real
    ensures DistSquared(a, b) as real < Square(Heuristic(a, b) + 1.0 / SqrtScale as real)
  {
    var d2 := DistSquared(a, b);
    assert Heuristic(a, b) == Root(d2);
    RootBounds(d2);
  }

  lemma RootBounds(d2: nat)
    ensures Root(d2) >= 0.0
    ensures Square(Root(d2)) <= d2 as real
    ensures d2 as real < Square(Root(d2) + 1.0 / SqrtScale as real)
  {
    var r := ISqrt(d2 * SqrtScaleSquared);
    ScaledRoot(d2, r, Root(d2));
  }

  lemma ScaledRoot(d2: nat, r: nat, y: real)
    requires r * r <= d2 * SqrtScaleSquared < (r + 1) * (r + 1)
    requires y == r as real / SqrtScale as real
    ensures y >= 0.0
    ensures Square(y) <= d2 as real
    ensures d2 as real < Square(y + 1.0 / SqrtScale as real)
  {
    var k := SqrtScale as real;
    var kk := SqrtScaleSquared as real;
    var d := d2 as real;
    CastMul(SqrtScale, SqrtScale);
    CastMul(r, r);
    CastMul(r + 1, r + 1);
    CastMul(d2, SqrtScaleSquared);
    var z := y + 1.0 / k;
    assert y * k == r as real;
    assert z * k == r as real + 1.0;
    SquareScaled(y, k);
    SquareScaled(z, k);
    // (y k)^2 <= d k^2 < (z k)^2, and k^2 > 0
    assert (y * y) * kk <= d * kk;
    assert d * kk < (z * z) * kk;
    CancelLe(y * y, d, kk);
    CancelLt(d, z * z, kk);
  }

  lemma CastMul(a: int, b: int)
    ensures (a * b) as real == a as real * b as real
  {
  }

  lemma SquareScaled(y: real, k: real)
    ensures (y * k) * (y * k) == (y * y) * (k * k)
  {
  }

  lemma CancelLe(a: real, b: real, c: real)
    requires c > 0.0 && a * c <= b * c
    ensures a <= b
  {
  }

  lemma CancelLt(a: real, b: real, c: real)
    requires c > 0.0 && a * c < b * c
    ensures a < b
  {
  }

  /** The heuristic of a cell to itself is 0. */
  lemma HeuristicOfGoalIsZero(c: Cell)
    ensures Heuristic(c, c) == 0.0
  {
    assert DistSquared(c, c) == 0;
  }

  // ---------------------------------------------------------------------
  // Neighbours
  // ---------------------------------------------------------------------

  /** Two distinct cells that touch orthogonally or diagonally. */
  predicate Adjacent(a: Cell, b: Cell) {
    a != b && -1 <= b.x - a.x <= 1 && -1 <= b.y - a.y <= 1
  }

  /** The order in which `getNeighbors` emits cells: `dx` outer, `dy` inner. */
  predicate LexBefore(a: Cell, b: Cell) {
    a.x < b.x || (a.x == b.x && a.y < b.y)
  }

  /** `getNeighbors`: the in-grid 8-neighbours, in (dx, dy) order. */
  method GetNeighbors(c: Cell) returns (ns: seq<Cell>)
    ensures forall n :: n in ns <==> InBounds(n) && Adjacent(c, n)
    ensures forall i, j :: 0 <= i < j < |ns| ==> LexBefore(ns[i], ns[j])
  {
    ns := [];
    for dx := -1 to 2
      invariant forall n :: n in ns <==> InBounds(n) && Adjacent(c, n) && n.x - c.x < dx
      invariant forall i, j :: 0 <= i < j < |ns| ==> LexBefore(ns[i], ns[j])
    {
      for dy := -1 to 2
        invariant forall n :: n in ns <==>
          InBounds(n) && Adjacent(c, n) && (n.x - c.x < dx || (n.x - c.x == dx && n.y - c.y < dy))
        invariant forall i, j :: 0 <= i < j < |ns| ==> LexBefore(ns[i], ns[j])
      {
        if dx == 0 && dy == 0 {
          continue;
        }
        var nx := c.x + dx;
        var ny := c.y + dy;
        if 0 <= nx < Width && 0 <= ny < Height {
          ns := ns + [Cell(nx, ny)];
        }
      }
    }
  }

  /** Neighbours come without repetition, so each is examined once. */
  lemma NeighborsDistinct(ns: seq<Cell>)
    requires forall i, j :: 0 <= i < j < |ns| ==> LexBefore(ns[i], ns[j])
    ensures forall i, j :: 0 <= i < j < |ns| ==> ns[i] != ns[j]
  {
  }

  // ---------------------------------------------------------------------
  // Search state
  // ---------------------------------------------------------------------

  /** A search node. `parent` indexes the sequence of expanded nodes, which
      stands for the object reference of the source: a node is never
      changed once it has been expanded. */
  datatype Node = Node(cell: Cell, g: real, f: real, parent: Option<nat>)

  /** An element of the returned path: the node without its parent link. */
  datatype PathStep = PathStep(cell: Cell, g: real, f: real)

  function StepOf(n: Node): PathStep {
    PathStep(n.cell, n.g, n.f)
  }

  function CostAt(grid: array2<Cost>, c: Cell): Cost
    reads grid
    requires Shaped(grid) && InBounds(c)
  {
    grid[c.y, c.x]
  }

  /** `DIAGONAL_COST` for a diagonal move, 1 for an orthogonal one. */
  function MoveCost(from: Cell, to: Cell): real {
    if to.x != from.x && to.y != from.y then DiagonalCost else 1.0
  }

  /** Cost of entering water cell `to` from `from`. */
  function StepCost(grid: array2<Cost>, from: Cell, to: Cell): real
    reads grid
    requires Shaped(grid) && InBounds(to) && CostAt(grid, to).Water?
  {
    CostAt(grid, to).cost * MoveCost(from, to)
  }

  /** `gScore < (gScores.get(key) || Infinity)`: a missing entry, and also a
      recorded score of 0, reads as Infinity. */
  predicate Improves(g: real, gScores: map<Cell, real>, c: Cell)
    ensures c in gScores && gScores[c] == g ==> (Improves(g, gScores, c) <==> g == 0.0)
    ensures c in gScores && 0.0 < gScores[c] <= g ==> !Improves(g, gScores, c)
    ensures c in gScores && gScores[c] == 0.0 ==> Improves(g, gScores, c)
  {
    c !in gScores || gScores[c] == 0.0 || g < gScores[c]
  }

  /** A node is consistent with its parent among the first `bound`
      expanded nodes: adjacent, entered water, and g accumulated. */
  ghost predicate Linked(grid: array2<Cost>, start: Cell, end: Cell, expanded: seq<Node>, n: Node, bound: int)
    reads grid
    requires Shaped(grid)
  {
    InBounds(n.cell) && n.f == n.g + Heuristic(n.cell, end) &&
    match n.parent
    case None => n.cell == start && n.g == 0.0
    case Some(k) =>
      k < bound && k < |expanded| && Adjacent(expanded[k].cell, n.cell) &&
      CostAt(grid, n.cell).Water? &&
      n.g == expanded[k].g + StepCost(grid, expanded[k].cell, n.cell)
  }

  ghost predicate ArenaOk(grid: array2<Cost>, start: Cell, end: Cell, expanded: seq<Node>)
    reads grid
    requires Shaped(grid)
  {
    forall i :: 0 <= i < |expanded| ==> Linked(grid, start, end, expanded, expanded[i], i)
  }

  ghost predicate OpenOk(grid: array2<Cost>, start: Cell, end: Cell, expanded: seq<Node>,
                         open: seq<Node>, closed: set<Cell>, gScores: map<Cell, real>)
    reads grid
    requires Shaped(grid)
  {
    (forall i :: 0 <= i < |open| ==>
       Linked(grid, start, end, expanded, open[i], |expanded|) &&
       open[i].cell !in closed && open[i].cell in gScores && gScores[open[i].cell] == open[i].g &&
       (open[i].parent.None? ==> expanded == [])) &&
    (forall i, j :: 0 <= i < j < |open| ==> open[i].cell != open[j].cell) &&
    (expanded == [] ==> |open| <= 1)
  }

  ghost predicate ClosedOk(closed: set<Cell>, expanded: seq<Node>) {
    (forall c :: c in closed ==> InBounds(c)) &&
    (forall i :: 0 <= i < |expanded| ==> expanded[i].cell in closed) &&
    (forall i, j :: 0 <= i < j < |expanded| ==> expanded[i].cell != expanded[j].cell)
  }

  /** Cell `c` is closed or has a node in the open list. */
  ghost predicate Covered(open: seq<Node>, closed: set<Cell>, c: Cell) {
    c in closed || exists i :: 0 <= i < |open| && open[i].cell == c
  }

  /** The open list keeps the cell of every position; nodes may be added. */
  ghost predicate KeepsCells(open: seq<Node>, open': seq<Node>) {
    |open| <= |open'| && forall i :: 0 <= i < |open| ==> open'[i].cell == open[i].cell
  }

  /** A closed cell whose neighbours have been examined: the start or a
      water cell, other than `cur`, whose neighbours are being examined. */
  ghost predicate Examined(grid: array2<Cost>, start: Cell, closed: set<Cell>, cur: Option<Cell>, c: Cell)
    reads grid
    requires Shaped(grid)
  {
    c in closed && Some(c) != cur && InBounds(c) && (c == start || CostAt(grid, c).Water?)
  }

  /** `nb` is an in-grid water cell next to `c`. */
  ghost predicate WaterNeighbor(grid: array2<Cost>, c: Cell, nb: Cell)
    reads grid
    requires Shaped(grid)
  {
    InBounds(nb) && Adjacent(c, nb) && CostAt(grid, nb).Water?
  }

  /** `c` has a recorded g score. */
  ghost predicate Scored(gScores: map<Cell, real>, c: Cell) {
    c in gScores
  }

  /** The search frontier: every water neighbour of an examined cell is
      closed or open, and so is every cell with a recorded score. */
  ghost predicate Frontier(grid: array2<Cost>, start: Cell, open: seq<Node>, closed: set<Cell>,
                           gScores: map<Cell, real>, cur: Option<Cell>)
    reads grid
    requires Shaped(grid)
  {
    (forall c, nb :: Examined(grid, start, closed, cur, c) && WaterNeighbor(grid, c, nb) ==>
       Covered(open, closed, nb)) &&
    (forall c :: Scored(gScores, c) ==> Covered(open, closed, c))
  }

  /** No cell repeats along a path. */
  ghost predicate Simple(path: seq<PathStep>) {
    forall i, j :: 0 <= i < j < |path| ==> path[i].cell != path[j].cell
  }

  /** A path as `findPathAStar` returns it: from `start` to `end` through
      in-grid water cells, every step to an adjacent cell, each node's g the
      parent's g plus the step cost and its f = g + heuristic. */
  ghost predicate Steps(grid: array2<Cost>, end: Cell, path: seq<PathStep>)
    reads grid
    requires Shaped(grid)
  {
    (forall i :: 0 <= i < |path| ==>
       InBounds(path[i].cell) && path[i].f == path[i].g + Heuristic(path[i].cell, end)) &&
    (forall i :: 0 < i < |path| ==>
       Adjacent(path[i - 1].cell, path[i].cell) && CostAt(grid, path[i].cell).Water? &&
       path[i].g == path[i - 1].g + StepCost(grid, path[i - 1].cell, path[i].cell))
  }

  ghost predicate ValidPath(grid: array2<Cost>, start: Cell, end: Cell, path: seq<PathStep>)
    reads grid
    requires Shaped(grid)
  {
    |path| > 0 && path[0].cell == start && path[0].g == 0.0 &&
    path[|path| - 1].cell == end && Steps(grid, end, path)
  }

  /** A sequence of cells from `start` to `end` in which every cell after
      the first is an in-grid water cell adjacent to its predecessor. */
  ghost predicate WaterWalk(grid: array2<Cost>, start: Cell, end: Cell, cells: seq<Cell>)
    reads grid
    requires Shaped(grid)
  {
    |cells| > 0 && cells[0] == start && cells[|cells| - 1] == end &&
    forall k :: 0 < k < |cells| ==>
      InBounds(cells[k]) && Adjacent(cells[k - 1], cells[k]) && CostAt(grid, cells[k]).Water?
  }

  /** `end` can be reached from `start` by sailing through water. */
  ghost predicate Reachable(grid: array2<Cost>, start: Cell, end: Cell)
    reads grid
    requires Shaped(grid)
  {
    exists cells :: WaterWalk(grid, start, end, cells)
  }

  /** Every cell of the grid. */
  function AllCells(): (s: set<Cell>)
    ensures forall c :: c in s <==> InBounds(c)
  {
    set x, y | 0 <= x < Width && 0 <= y < Height :: Cell(x, y)
  }

  /** The cells of rows 0 .. h-1, columns 0 .. w-1. */
  function Block(w: nat, h: nat): set<Cell> {
    set x, y | 0 <= x < w && 0 <= y < h :: Cell(x, y)
  }

  function Row(w: nat, y: int): set<Cell> {
    set x | 0 <= x < w :: Cell(x, y)
  }

  lemma {:induction false} RowCount(w: nat, y: int)
    ensures |Row(w, y)| == w
  {
    if w > 0 {
      RowCount(w - 1, y);
      assert Row(w, y) == Row(w - 1, y) + {Cell(w - 1, y)};
    }
  }

  lemma {:induction false} BlockCount(w: nat, h: nat)
    ensures |Block(w, h)| == w * h
  {
    if h > 0 {
      BlockCount(w, h - 1);
      RowCount(w, h - 1);
      BlockSplit(w, h);
      assert w * h == w * (h - 1) + w;
    }
  }

  /** The top row of a block is disjoint from the rows below it. */
  lemma BlockSplit(w: nat, h: nat)
    requires h > 0
    ensures Block(w, h) == Block(w, h - 1) + Row(w, h - 1)
    ensures Block(w, h - 1) !! Row(w, h - 1)
  {
    forall c | c in Block(w, h)
      ensures c in Block(w, h - 1) + Row(w, h - 1)
    {
      if c.y < h - 1 {
        assert c in Block(w, h - 1);
      } else {
        assert c in Row(w, h - 1);
      }
    }
    forall c | c in Block(w, h - 1)
      ensures c in Block(w, h) && c !in Row(w, h - 1)
    {
    }
    forall c | c in Row(w, h - 1)
      ensures c in Block(w, h)
    {
    }
  }

  /** The grid has 120 * 90 cells, so the search expands at most that many. */
  lemma AllCellsCount()
    ensures |AllCells()| == Width * Height
  {
    BlockCount(Width, Height);
    assert AllCells() == Block(Width, Height);
  }

  // ---------------------------------------------------------------------
  // Search steps
  // ---------------------------------------------------------------------

  /** The `lowIndex` scan: the first open node of least f. */
  method LowestF(open: seq<Node>) returns (low: nat)
    requires |open| > 0
    ensures low < |open|
    ensures forall i :: 0 <= i < |open| ==> open[low].f <= open[i].f
    ensures forall i :: 0 <= i < low ==> open[i].f > open[low].f
  {
    low := 0;
    for i := 0 to |open|
      invariant low < |open| && low <= i
      invariant forall j :: 0 <= j < i ==> open[low].f <= open[j].f
      invariant forall j :: 0 <= j < low ==> open[j].f > open[low].f
    {
      if open[i].f < open[low].f {
        low := i;
      }
    }
  }

  /** `openList.find`: the first open node on cell `c`, if any. */
  method FindOpen(open: seq<Node>, c: Cell) returns (idx: Option<nat>)
    ensures idx.Some? ==> idx.value < |open| && open[idx.value].cell == c
    ensures idx.Some? ==> forall i :: 0 <= i < idx.value ==> open[i].cell != c
    ensures idx.None? ==> forall i :: 0 <= i < |open| ==> open[i].cell != c
  {
    for i := 0 to |open|
      invariant forall j :: 0 <= j < i ==> open[j].cell != c
    {
      if open[i].cell == c {
        return Some(i);
      }
    }
    return None;
  }

  /** Relaxation of one water neighbour `nb` reached from expanded node
      number `me` at cost `g`: when `g` improves on the recorded score the
      score is recorded and the open node for `nb` is updated in place, or a
      new one is appended; otherwise nothing changes. */
  method Relax(open: seq<Node>, gScores: map<Cell, real>, nb: Cell, g: real, end: Cell, me: nat)
    returns (open': seq<Node>, gScores': map<Cell, real>)
    ensures !Improves(g, gScores, nb) ==> open' == open && gScores' == gScores
    ensures Improves(g, gScores, nb) ==> gScores' == gScores[nb := g]
    ensures Improves(g, gScores, nb) ==>
      var node := Node(nb, g, g + Heuristic(nb, end), Some(me));
      if exists i :: 0 <= i < |open| && open[i].cell == nb
      then exists i :: 0 <= i < |open| && open[i].cell == nb &&
             (forall j :: 0 <= j < i ==> open[j].cell != nb) && open' == open[i := node]
      else open' == open + [node]
  {
    open', gScores' := open, gScores;
    if Improves(g, gScores, nb) {
      gScores' := gScores[nb := g];
      var f := g + Heuristic(nb, end);
      var idx := FindOpen(open, nb);
      if idx.Some? {
        open' := open[idx.value := Node(nb, g, f, Some(me))];
      } else {
        open' := open + [Node(nb, g, f, Some(me))];
      }
    }
  }

  // ---------------------------------------------------------------------
  // Path reconstruction
  // ---------------------------------------------------------------------

  /** Following parent links from `goal` back to the start node, listed
      from the start (the source pushes and then reverses). */
  method Reconstruct(grid: array2<Cost>, start: Cell, end: Cell, expanded: seq<Node>, goal: Node)
    returns (path: seq<PathStep>)
    requires Shaped(grid)
    requires ArenaOk(grid, start, end, expanded)
    requires Linked(grid, start, end, expanded, goal, |expanded|)
    requires forall i, j :: 0 <= i < j < |expanded| ==> expanded[i].cell != expanded[j].cell
    requires forall i :: 0 <= i < |expanded| ==> expanded[i].cell != goal.cell
    ensures |path| > 0 && path[0].cell == start && path[0].g == 0.0
    ensures path[|path| - 1] == StepOf(goal)
    ensures Steps(grid, end, path)
    ensures Simple(path)
    ensures goal.parent.None? ==> path == [StepOf(goal)]
  {
    path := [StepOf(goal)];
    var cur := goal.parent;
    ghost var head := goal;
    // indices into `expanded` of every path element but the goal
    ghost var idx: seq<nat> := [];
    while cur.Some?
      invariant Linked(grid, start, end, expanded, head, |expanded|)
      invariant cur == head.parent
      invariant |path| > 0 && path[0] == StepOf(head) && path[|path| - 1] == StepOf(goal)
      invariant Steps(grid, end, path)
      invariant goal.parent.None? ==> path == [StepOf(goal)]
      invariant Indexed(expanded, path, idx, cur)
      decreases if cur.Some? then cur.value + 1 else 0
    {
      var n := expanded[cur.value];
      assert Linked(grid, start, end, expanded, n, cur.value);
      PrependStep(grid, end, n, head, path);
      PrependIndex(expanded, path, idx, cur.value);
      path := [StepOf(n)] + path;
      idx := [cur.value] + idx;
      head := n;
      cur := n.parent;
    }
    IndexedSimple(expanded, path, idx, goal);
  }

  /** `idx` lists, strictly increasing, the expanded nodes behind every
      path element but the last; `cur` is below all of them. */
  ghost predicate Indexed(expanded: seq<Node>, path: seq<PathStep>, idx: seq<nat>, cur: Option<nat>) {
    |idx| == |path| - 1 &&
    (forall i :: 0 <= i < |idx| ==> idx[i] < |expanded| && path[i] == StepOf(expanded[idx[i]])) &&
    (forall i, j :: 0 <= i < j < |idx| ==> idx[i] < idx[j]) &&
    (cur.Some? ==> forall i :: 0 <= i < |idx| ==> cur.value < idx[i])
  }

  lemma PrependIndex(expanded: seq<Node>, path: seq<PathStep>, idx: seq<nat>, k: nat)
    requires Indexed(expanded, path, idx, Some(k)) && k < |expanded|
    requires expanded[k].parent.Some? ==> expanded[k].parent.value < k
    ensures Indexed(expanded, [StepOf(expanded[k])] + path, [k] + idx, expanded[k].parent)
  {
    var p := [StepOf(expanded[k])] + path;
    var ix := [k] + idx;
    forall i | 0 <= i < |ix|
      ensures ix[i] < |expanded| && p[i] == StepOf(expanded[ix[i]])
    {
      if i > 0 {
        assert ix[i] == idx[i - 1] && p[i] == path[i - 1];
      }
    }
  }

  lemma IndexedSimple(expanded: seq<Node>, path: seq<PathStep>, idx: seq<nat>, goal: Node)
    requires Indexed(expanded, path, idx, None) && |path| > 0 && path[|path| - 1] == StepOf(goal)
    requires forall i, j :: 0 <= i < j < |expanded| ==> expanded[i].cell != expanded[j].cell
    requires forall i :: 0 <= i < |expanded| ==> expanded[i].cell != goal.cell
    ensures Simple(path)
  {
    forall i, j | 0 <= i < j < |path|
      ensures path[i].cell != path[j].cell
    {
      if j < |idx| {
        assert expanded[idx[i]].cell != expanded[idx[j]].cell;
      } else {
        assert path[i].cell == expanded[idx[i]].cell;
      }
    }
  }

  lemma PrependStep(grid: array2<Cost>, end: Cell, n: Node, head: Node, path: seq<PathStep>)
    requires Shaped(grid)
    requires Steps(grid, end, path) && |path| > 0 && path[0] == StepOf(head)
    requires InBounds(n.cell) && n.f == n.g + Heuristic(n.cell, end)
    requires InBounds(head.cell) && Adjacent(n.cell, head.cell) && CostAt(grid, head.cell).Water?
    requires head.g == n.g + StepCost(grid, n.cell, head.cell)
    ensures Steps(grid, end, [StepOf(n)] + path)
  {
    var p := [StepOf(n)] + path;
    forall i | 0 < i < |p|
      ensures Adjacent(p[i - 1].cell, p[i].cell) && CostAt(grid, p[i].cell).Water? &&
              p[i].g == p[i - 1].g + StepCost(grid, p[i - 1].cell, p[i].cell)
    {
      assert p[i] == path[i - 1];
      if i > 1 {
        assert p[i - 1] == path[i - 2];
      }
    }
  }

  // ---------------------------------------------------------------------
  // Invariant maintenance
  // ---------------------------------------------------------------------

  lemma LinkedGrow(grid: array2<Cost>, start: Cell, end: Cell, e: seq<Node>, e': seq<Node>, n: Node, b: int, b': int)
    requires Shaped(grid)
    requires Linked(grid, start, end, e, n, b)
    requires b <= b' && b <= |e| <= |e'| && e'[..|e|] == e
    ensures Linked(grid, start, end, e', n, b')
  {
    if n.parent.Some? {
      assert e'[n.parent.value] == e[n.parent.value];
    }
  }

  /** Popping open node `low` and appending it to the expanded nodes keeps
      the arena consistent. */
  lemma PopKeepsArena(grid: array2<Cost>, start: Cell, end: Cell, expanded: seq<Node>, n: Node)
    requires Shaped(grid)
    requires ArenaOk(grid, start, end, expanded)
    requires Linked(grid, start, end, expanded, n, |expanded|)
    ensures ArenaOk(grid, start, end, expanded + [n])
  {
    var e' := expanded + [n];
    assert e'[..|expanded|] == expanded;
    forall i | 0 <= i < |e'|
      ensures Linked(grid, start, end, e', e'[i], i)
    {
      if i < |expanded| {
        LinkedGrow(grid, start, end, expanded, e', expanded[i], i, i);
      } else {
        LinkedGrow(grid, start, end, expanded, e', n, |expanded|, i);
      }
    }
  }

  /** Popping open node `low`, closing its cell and adding it to the
      expanded nodes keeps the open list consistent. */
  lemma PopKeepsOpen(grid: array2<Cost>, start: Cell, end: Cell, expanded: seq<Node>,
                     open: seq<Node>, closed: set<Cell>, gScores: map<Cell, real>, low: nat)
    requires Shaped(grid) && low < |open|
    requires OpenOk(grid, start, end, expanded, open, closed, gScores)
    ensures OpenOk(grid, start, end, expanded + [open[low]], open[..low] + open[low + 1..],
                   closed + {open[low].cell}, gScores)
  {
    var e' := expanded + [open[low]];
    var o' := open[..low] + open[low + 1..];
    var c' := closed + {open[low].cell};
    assert e'[..|expanded|] == expanded;
    forall i | 0 <= i < |o'|
      ensures o'[i] == open[if i < low then i else i + 1]
    {
    }
    forall i | 0 <= i < |o'|
      ensures Linked(grid, start, end, e', o'[i], |e'|)
    {
      LinkedGrow(grid, start, end, expanded, e', o'[i], |expanded|, |e'|);
    }
  }

  lemma PopKeepsClosed(closed: set<Cell>, expanded: seq<Node>, n: Node)
    requires ClosedOk(closed, expanded) && InBounds(n.cell) && n.cell !in closed
    ensures ClosedOk(closed + {n.cell}, expanded + [n])
  {
    var e' := expanded + [n];
    forall i, j | 0 <= i < j < |e'|
      ensures e'[i].cell != e'[j].cell
    {
      assert e'[i] == expanded[i];
      if j < |expanded| {
        assert e'[j] == expanded[j];
      }
    }
  }

  /** Closing a land neighbour keeps the invariants once a node has been
      expanded: no open node sits on land. */
  lemma CloseLandKeeps(grid: array2<Cost>, start: Cell, end: Cell, expanded: seq<Node>,
                       open: seq<Node>, closed: set<Cell>, gScores: map<Cell, real>, nb: Cell)
    requires Shaped(grid) && InBounds(nb) && CostAt(grid, nb) == Land && expanded != []
    requires OpenOk(grid, start, end, expanded, open, closed, gScores)
    requires ClosedOk(closed, expanded)
    ensures OpenOk(grid, start, end, expanded, open, closed + {nb}, gScores)
    ensures ClosedOk(closed + {nb}, expanded)
  {
    assert forall i, j :: 0 <= i < j < |expanded| ==> expanded[i].cell != expanded[j].cell;
    forall i | 0 <= i < |open|
      ensures open[i].cell != nb
    {
      assert Linked(grid, start, end, expanded, open[i], |expanded|);
    }
  }

  /** Relaxing a water neighbour of the last expanded node keeps the
      invariants. */
  lemma RelaxKeeps(grid: array2<Cost>, start: Cell, end: Cell, expanded: seq<Node>,
                   open: seq<Node>, closed: set<Cell>, gScores: map<Cell, real>, nb: Cell, g: real,
                   open': seq<Node>, gScores': map<Cell, real>)
    requires Shaped(grid) && expanded != [] && InBounds(nb) && nb !in closed
    requires Adjacent(expanded[|expanded| - 1].cell, nb) && CostAt(grid, nb).Water?
    requires g == expanded[|expanded| - 1].g + StepCost(grid, expanded[|expanded| - 1].cell, nb)
    requires OpenOk(grid, start, end, expanded, open, closed, gScores)
    requires !Improves(g, gScores, nb) ==> open' == open && gScores' == gScores
    requires Improves(g, gScores, nb) ==> gScores' == gScores[nb := g]
    requires Improves(g, gScores, nb) ==>
      var node := Node(nb, g, g + Heuristic(nb, end), Some(|expanded| - 1));
      if exists i :: 0 <= i < |open| && open[i].cell == nb
      then exists i :: 0 <= i < |open| && open[i].cell == nb &&
             (forall j :: 0 <= j < i ==> open[j].cell != nb) && open' == open[i := node]
      else open' == open + [node]
    ensures OpenOk(grid, start, end, expanded, open', closed, gScores')
  {
    if Improves(g, gScores, nb) {
      var node := Node(nb, g, g + Heuristic(nb, end), Some(|expanded| - 1));
      assert Linked(grid, start, end, expanded, node, |expanded|);
      if exists i :: 0 <= i < |open| && open[i].cell == nb {
        var i :| 0 <= i < |open| && open[i].cell == nb &&
               (forall j :: 0 <= j < i ==> open[j].cell != nb) && open' == open[i := node];
        RelaxReplace(grid, start, end, expanded, open, closed, gScores, node, i);
      } else {
        RelaxAppend(grid, start, end, expanded, open, closed, gScores, node);
      }
    }
  }

  /** Relaxation keeps the cells of the open list, records a score for
      `nb` at most, and on improvement leaves the new node in the list. */
  lemma RelaxCovers(open: seq<Node>, closed: set<Cell>, gScores: map<Cell, real>, nb: Cell, g: real,
                    end: Cell, me: nat, open': seq<Node>, gScores': map<Cell, real>)
    requires !Improves(g, gScores, nb) ==> open' == open && gScores' == gScores
    requires Improves(g, gScores, nb) ==> gScores' == gScores[nb := g]
    requires Improves(g, gScores, nb) ==>
      var node := Node(nb, g, g + Heuristic(nb, end), Some(me));
      if exists i :: 0 <= i < |open| && open[i].cell == nb
      then exists i :: 0 <= i < |open| && open[i].cell == nb &&
             (forall j :: 0 <= j < i ==> open[j].cell != nb) && open' == open[i := node]
      else open' == open + [node]
    ensures KeepsCells(open, open')
    ensures forall c :: c in gScores' ==> c in gScores || c == nb
    ensures Improves(g, gScores, nb) ==>
      exists i :: 0 <= i < |open'| && open'[i] == Node(nb, g, g + Heuristic(nb, end), Some(me))
    ensures Improves(g, gScores, nb) ==> Covered(open', closed, nb)
  {
    if Improves(g, gScores, nb) {
      var node := Node(nb, g, g + Heuristic(nb, end), Some(me));
      if exists i :: 0 <= i < |open| && open[i].cell == nb {
        var i :| 0 <= i < |open| && open[i].cell == nb &&
               (forall j :: 0 <= j < i ==> open[j].cell != nb) && open' == open[i := node];
        assert open'[i] == node;
      } else {
        assert open'[|open|] == node;
      }
    }
  }

  /** A better path to a cell already open replaces its entry. */
  lemma RelaxReplace(grid: array2<Cost>, start: Cell, end: Cell, expanded: seq<Node>,
                     open: seq<Node>, closed: set<Cell>, gScores: map<Cell, real>, node: Node, i: nat)
    requires Shaped(grid) && expanded != []
    requires OpenOk(grid, start, end, expanded, open, closed, gScores)
    requires Linked(grid, start, end, expanded, node, |expanded|) && node.cell !in closed && node.parent.Some?
    requires i < |open| && open[i].cell == node.cell
    ensures OpenOk(grid, start, end, expanded, open[i := node], closed, gScores[node.cell := node.g])
  {
    var open', gScores' := open[i := node], gScores[node.cell := node.g];
    forall j | 0 <= j < |open'|
      ensures Linked(grid, start, end, expanded, open'[j], |expanded|) &&
        open'[j].cell !in closed && open'[j].cell in gScores' && gScores'[open'[j].cell] == open'[j].g &&
        (open'[j].parent.None? ==> expanded == [])
    {
      if j != i {
        assert open'[j] == open[j] && open[j].cell != open[i].cell;
      }
    }
    forall a, b | 0 <= a < b < |open'| ensures open'[a].cell == open[a].cell != open[b].cell == open'[b].cell {
    }
  }

  /** A first path to a cell not yet open appends a new entry. */
  lemma RelaxAppend(grid: array2<Cost>, start: Cell, end: Cell, expanded: seq<Node>,
                    open: seq<Node>, closed: set<Cell>, gScores: map<Cell, real>, node: Node)
    requires Shaped(grid) && expanded != []
    requires OpenOk(grid, start, end, expanded, open, closed, gScores)
    requires Linked(grid, start, end, expanded, node, |expanded|) && node.cell !in closed && node.parent.Some?
    requires forall j :: 0 <= j < |open| ==> open[j].cell != node.cell
    ensures OpenOk(grid, start, end, expanded, open + [node], closed, gScores[node.cell := node.g])
  {
    var open', gScores' := open + [node], gScores[node.cell := node.g];
    forall j | 0 <= j < |open'|
      ensures Linked(grid, start, end, expanded, open'[j], |expanded|) &&
        open'[j].cell !in closed && open'[j].cell in gScores' && gScores'[open'[j].cell] == open'[j].g &&
        (open'[j].parent.None? ==> expanded == [])
    {
      if j < |open| {
        assert open'[j] == open[j];
      }
    }
    forall a, b | 0 <= a < b < |open'| ensures open'[a].cell != open'[b].cell {
      assert open'[a] == open[a];
      if b < |open| {
        assert open'[b] == open[b];
      }
    }
  }

  lemma SubsetCard<T>(a: set<T>, b: set<T>)
    requires a <= b
    ensures |a| <= |b|
  {
    assert b == a + (b - a);
  }

  /** Closing at least one new in-grid cell shrinks the set of open cells
      of the grid: the termination measure of the search. */
  lemma ShrinkMeasure(closed0: set<Cell>, closed: set<Cell>, c: Cell)
    requires InBounds(c) && c !in closed0 && closed0 + {c} <= closed
    ensures |AllCells() - closed| < |AllCells() - closed0|
  {
    var a := AllCells() - closed;
    var b := AllCells() - closed0;
    assert c in b;
    SubsetCard(a, b - {c});
  }

  lemma CoveredGrows(open: seq<Node>, closed: set<Cell>, open': seq<Node>, closed': set<Cell>, c: Cell)
    requires KeepsCells(open, open') && closed <= closed' && Covered(open, closed, c)
    ensures Covered(open', closed', c)
  {
    if c !in closed {
      var i :| 0 <= i < |open| && open[i].cell == c;
      assert open'[i].cell == c;
    }
  }

  /** Taking node `low` off the open list and closing its cell leaves every
      covered cell covered. */
  lemma CoveredPop(open: seq<Node>, closed: set<Cell>, low: nat, c: Cell)
    requires low < |open| && Covered(open, closed, c)
    ensures Covered(open[..low] + open[low + 1..], closed + {open[low].cell}, c)
  {
    var o' := open[..low] + open[low + 1..];
    if c !in closed && c != open[low].cell {
      var i :| 0 <= i < |open| && open[i].cell == c;
      if i < low {
        assert o'[i] == open[i];
      } else {
        assert o'[i - 1] == open[i];
      }
    }
  }

  /** Popping a node keeps the frontier, with its cell as the one whose
      neighbours are now examined. */
  lemma FrontierPop(grid: array2<Cost>, start: Cell, open: seq<Node>, closed: set<Cell>,
                    gScores: map<Cell, real>, low: nat)
    requires Shaped(grid) && low < |open|
    requires Frontier(grid, start, open, closed, gScores, None)
    ensures Frontier(grid, start, open[..low] + open[low + 1..], closed + {open[low].cell}, gScores,
                     Some(open[low].cell))
  {
    var o', c', cur := open[..low] + open[low + 1..], closed + {open[low].cell}, Some(open[low].cell);
    forall c, nb | Examined(grid, start, c', cur, c) && WaterNeighbor(grid, c, nb)
      ensures Covered(o', c', nb)
    {
      assert Examined(grid, start, closed, None, c);
      CoveredPop(open, closed, low, nb);
    }
    forall c | Scored(gScores, c)
      ensures Covered(o', c', c)
    {
      CoveredPop(open, closed, low, c);
    }
  }

  /** Closing a land cell other than the start keeps the frontier. */
  lemma FrontierCloseLand(grid: array2<Cost>, start: Cell, open: seq<Node>, closed: set<Cell>,
                          gScores: map<Cell, real>, cur: Option<Cell>, nb: Cell)
    requires Shaped(grid) && InBounds(nb) && CostAt(grid, nb) == Land && nb != start
    requires Frontier(grid, start, open, closed, gScores, cur)
    ensures Frontier(grid, start, open, closed + {nb}, gScores, cur)
  {
    var c' := closed + {nb};
    forall c, n | Examined(grid, start, c', cur, c) && WaterNeighbor(grid, c, n)
      ensures Covered(open, c', n)
    {
      assert Examined(grid, start, closed, cur, c);
      CoveredGrows(open, closed, open, c', n);
    }
    forall c | Scored(gScores, c)
      ensures Covered(open, c', c)
    {
      CoveredGrows(open, closed, open, c', c);
    }
  }

  /** Relaxing `nb` keeps the frontier when the open list keeps its cells,
      `nb` ends up covered, and only `nb` may gain a score. */
  lemma FrontierRelax(grid: array2<Cost>, start: Cell, open: seq<Node>, closed: set<Cell>,
                      gScores: map<Cell, real>, cur: Option<Cell>,
                      open': seq<Node>, gScores': map<Cell, real>, nb: Cell)
    requires Shaped(grid) && Frontier(grid, start, open, closed, gScores, cur)
    requires KeepsCells(open, open') && Covered(open', closed, nb)
    requires forall c :: c in gScores' ==> c in gScores || c == nb
    ensures Frontier(grid, start, open', closed, gScores', cur)
  {
    forall c, n | Examined(grid, start, closed, cur, c) && WaterNeighbor(grid, c, n)
      ensures Covered(open', closed, n)
    {
      CoveredGrows(open, closed, open', closed, n);
    }
    forall c | Scored(gScores', c)
      ensures Covered(open', closed, c)
    {
      if c != nb {
        assert Scored(gScores, c);
        CoveredGrows(open, closed, open', closed, c);
      }
    }
  }

  /** Once every neighbour of `cur` is covered, `cur` joins the examined
      cells of the frontier. */
  lemma FrontierFinish(grid: array2<Cost>, start: Cell, open: seq<Node>, closed: set<Cell>,
                       gScores: map<Cell, real>, cur: Cell, ns: seq<Cell>)
    requires Shaped(grid) && Frontier(grid, start, open, closed, gScores, Some(cur))
    requires forall n :: n in ns <==> InBounds(n) && Adjacent(cur, n)
    requires CoversPrefix(open, closed, ns, |ns|)
    ensures Frontier(grid, start, open, closed, gScores, None)
  {
    forall c, nb | Examined(grid, start, closed, None, c) && WaterNeighbor(grid, c, nb)
      ensures Covered(open, closed, nb)
    {
      if c == cur {
        assert nb in ns;
        var m :| 0 <= m < |ns| && ns[m] == nb;
      } else {
        assert Examined(grid, start, closed, Some(cur), c);
      }
    }
  }

  /** With an empty open list, a walk from the closed start stays inside
      the closed cells. */
  lemma {:induction false} WalkStaysClosed(grid: array2<Cost>, start: Cell, closed: set<Cell>,
                                           gScores: map<Cell, real>, cells: seq<Cell>, k: nat)
    requires Shaped(grid) && InBounds(start) && start in closed
    requires Frontier(grid, start, [], closed, gScores, None)
    requires |cells| > 0 && cells[0] == start
    requires forall j :: 0 < j < |cells| ==>
      InBounds(cells[j]) && Adjacent(cells[j - 1], cells[j]) && CostAt(grid, cells[j]).Water?
    requires k < |cells|
    ensures cells[k] in closed
    decreases k
  {
    if k > 0 {
      WalkStaysClosed(grid, start, closed, gScores, cells, k - 1);
      assert 0 < k < |cells|;
      if k - 1 > 0 {
        assert 0 < k - 1 < |cells|;
      }
      assert Examined(grid, start, closed, None, cells[k - 1]);
      assert WaterNeighbor(grid, cells[k - 1], cells[k]);
      assert Covered([], closed, cells[k]);
    }
  }

  /** The search ran dry: the goal cannot be reached over water. */
  lemma ExhaustedUnreachable(grid: array2<Cost>, start: Cell, end: Cell, closed: set<Cell>,
                             gScores: map<Cell, real>)
    requires Shaped(grid) && InBounds(start) && InBounds(end) && start != end && start in closed
    requires Frontier(grid, start, [], closed, gScores, None)
    requires end in closed ==> CostAt(grid, end) == Land
    ensures !Reachable(grid, start, end)
  {
    forall cells
      ensures !WaterWalk(grid, start, end, cells)
    {
      NotAWalk(grid, start, end, closed, gScores, cells);
    }
  }

  lemma NotAWalk(grid: array2<Cost>, start: Cell, end: Cell, closed: set<Cell>,
                 gScores: map<Cell, real>, cells: seq<Cell>)
    requires Shaped(grid) && InBounds(start) && InBounds(end) && start != end && start in closed
    requires Frontier(grid, start, [], closed, gScores, None)
    requires end in closed ==> CostAt(grid, end) == Land
    ensures !WaterWalk(grid, start, end, cells)
  {
    if |cells| > 0 && cells[0] == start &&
       forall j :: 0 < j < |cells| ==>
         InBounds(cells[j]) && Adjacent(cells[j - 1], cells[j]) && CostAt(grid, cells[j]).Water?
    {
      WalkStaysClosed(grid, start, closed, gScores, cells, |cells| - 1);
    }
  }

  /** The cells of a valid path form a water walk. */
  lemma ValidPathIsWalk(grid: array2<Cost>, start: Cell, end: Cell, path: seq<PathStep>)
    requires Shaped(grid)
    ensures ValidPath(grid, start, end, path) ==> WaterWalk(grid, start, end, CellsOf(path))
  {
  }

  /** Without a water walk there is no valid path either. */
  lemma UnreachableNoPath(grid: array2<Cost>, start: Cell, end: Cell)
    requires Shaped(grid) && !Reachable(grid, start, end)
    ensures forall p :: !ValidPath(grid, start, end, p)
  {
    forall p
      ensures !ValidPath(grid, start, end, p)
    {
      ValidPathIsWalk(grid, start, end, p);
    }
  }

  // ---------------------------------------------------------------------
  // The search
  // ---------------------------------------------------------------------

  /** Every cell closed since `closed` is a land cell of the grid. */
  ghost predicate OnlyLandAdded(grid: array2<Cost>, closed: set<Cell>, closed': set<Cell>)
    reads grid
    requires Shaped(grid)
  {
    forall c :: c in closed' && c !in closed ==> InBounds(c) && CostAt(grid, c) == Land
  }

  /** The first `k` cells of `ns` are closed or open. */
  ghost predicate CoversPrefix(open: seq<Node>, closed: set<Cell>, ns: seq<Cell>, k: int) {
    forall m :: 0 <= m < k && m < |ns| ==> Covered(open, closed, ns[m])
  }

  lemma CoversPrefixGrows(open: seq<Node>, closed: set<Cell>, open': seq<Node>, closed': set<Cell>,
                          ns: seq<Cell>, k: nat)
    requires CoversPrefix(open, closed, ns, k) && k < |ns|
    requires KeepsCells(open, open') && closed <= closed' && Covered(open', closed', ns[k])
    ensures CoversPrefix(open', closed', ns, k + 1)
  {
    forall m | 0 <= m < k + 1 && m < |ns|
      ensures Covered(open', closed', ns[m])
    {
      if m < k {
        CoveredGrows(open, closed, open', closed', ns[m]);
      }
    }
  }

  /** The neighbour loop of `findPathAStar` for the last expanded node:
      closed neighbours are skipped, land neighbours are closed, water
      neighbours are relaxed. Afterwards every water neighbour is closed
      or open, and every newly closed cell is land. */
  method ExpandNeighbors(grid: array2<Cost>, start: Cell, end: Cell, expanded: seq<Node>,
                         open: seq<Node>, closed: set<Cell>, gScores: map<Cell, real>)
    returns (open': seq<Node>, closed': set<Cell>, gScores': map<Cell, real>)
    requires Shaped(grid) && expanded != [] && start in closed
    requires ArenaOk(grid, start, end, expanded)
    requires OpenOk(grid, start, end, expanded, open, closed, gScores)
    requires ClosedOk(closed, expanded)
    requires Frontier(grid, start, open, closed, gScores, Some(expanded[|expanded| - 1].cell))
    ensures OpenOk(grid, start, end, expanded, open', closed', gScores')
    ensures ClosedOk(closed', expanded)
    ensures closed <= closed'
    ensures OnlyLandAdded(grid, closed, closed')
    ensures Frontier(grid, start, open', closed', gScores', None)
  {
    open', closed', gScores' := open, closed, gScores;
    var cur := expanded[|expanded| - 1].cell;
    var neighbors := GetNeighbors(cur);
    for k := 0 to |neighbors|
      invariant OpenOk(grid, start, end, expanded, open', closed', gScores')
      invariant ClosedOk(closed', expanded)
      invariant closed <= closed'
      invariant OnlyLandAdded(grid, closed, closed')
      invariant Frontier(grid, start, open', closed', gScores', Some(cur))
      invariant CoversPrefix(open', closed', neighbors, k)
    {
      var nb := neighbors[k];
      assert nb in neighbors;
      ghost var o0, c0 := open', closed';
      open', closed', gScores' := VisitNeighbor(grid, start, end, expanded, nb, open', closed', gScores');
      CoversPrefixGrows(o0, c0, open', closed', neighbors, k);
    }
    FrontierFinish(grid, start, open', closed', gScores', cur, neighbors);
  }

  /** One neighbour `nb` of the last expanded node: skipped when closed,
      closed when land, relaxed when water. Either way `nb` ends up closed
      or open. */
  method VisitNeighbor(grid: array2<Cost>, start: Cell, end: Cell, expanded: seq<Node>, nb: Cell,
                       open: seq<Node>, closed: set<Cell>, gScores: map<Cell, real>)
    returns (open': seq<Node>, closed': set<Cell>, gScores': map<Cell, real>)
    requires Shaped(grid) && expanded != [] && start in closed
    requires InBounds(nb) && Adjacent(expanded[|expanded| - 1].cell, nb)
    requires ArenaOk(grid, start, end, expanded)
    requires OpenOk(grid, start, end, expanded, open, closed, gScores)
    requires ClosedOk(closed, expanded)
    requires Frontier(grid, start, open, closed, gScores, Some(expanded[|expanded| - 1].cell))
    ensures nb in closed ==> open' == open && closed' == closed && gScores' == gScores
    ensures nb !in closed && CostAt(grid, nb) == Land ==>
              open' == open && closed' == closed + {nb} && gScores' == gScores
    ensures nb !in closed && CostAt(grid, nb).Water? ==>
              closed' == closed && WaterRelaxed(grid, end, expanded, open, gScores, nb, open', gScores')
    ensures OpenOk(grid, start, end, expanded, open', closed', gScores')
    ensures ClosedOk(closed', expanded)
    ensures closed <= closed' && KeepsCells(open, open') && Covered(open', closed', nb)
    ensures Frontier(grid, start, open', closed', gScores', Some(expanded[|expanded| - 1].cell))
  {
    var me := |expanded| - 1;
    var current := expanded[me];
    open', closed', gScores' := open, closed, gScores;
    if nb in closed' {
      return;
    }
    assert CostAt(grid, nb) == grid[nb.y, nb.x];
    if grid[nb.y, nb.x] == Land {
      CloseLandKeeps(grid, start, end, expanded, open', closed', gScores', nb);
      FrontierCloseLand(grid, start, open, closed, gScores, Some(current.cell), nb);
      closed' := closed' + {nb};
      return;
    }
    open', gScores' := VisitWater(grid, start, end, expanded, nb, open, closed, gScores);
  }

  /** The effect of relaxing water neighbour `nb` of the last expanded
      node: when the step's g improves on the recorded score, the score is
      recorded and the open list holds the new node; otherwise nothing
      changes. */
  ghost predicate WaterRelaxed(grid: array2<Cost>, end: Cell, expanded: seq<Node>, open: seq<Node>,
                               gScores: map<Cell, real>, nb: Cell, open': seq<Node>, gScores': map<Cell, real>)
    reads grid
    requires Shaped(grid) && expanded != [] && InBounds(nb) && CostAt(grid, nb).Water?
  {
    var me := |expanded| - 1;
    var g := expanded[me].g + StepCost(grid, expanded[me].cell, nb);
    (Improves(g, gScores, nb) ==>
       gScores' == gScores[nb := g] &&
       exists i :: 0 <= i < |open'| && open'[i] == Node(nb, g, g + Heuristic(nb, end), Some(me))) &&
    (!Improves(g, gScores, nb) ==> open' == open && gScores' == gScores)
  }

  /** A water neighbour not yet closed: relax it. */
  method VisitWater(grid: array2<Cost>, start: Cell, end: Cell, expanded: seq<Node>, nb: Cell,
                    open: seq<Node>, closed: set<Cell>, gScores: map<Cell, real>)
    returns (open': seq<Node>, gScores': map<Cell, real>)
    requires Shaped(grid) && expanded != []
    requires InBounds(nb) && Adjacent(expanded[|expanded| - 1].cell, nb)
    requires nb !in closed && CostAt(grid, nb).Water?
    requires OpenOk(grid, start, end, expanded, open, closed, gScores)
    requires Frontier(grid, start, open, closed, gScores, Some(expanded[|expanded| - 1].cell))
    ensures WaterRelaxed(grid, end, expanded, open, gScores, nb, open', gScores')
    ensures OpenOk(grid, start, end, expanded, open', closed, gScores')
    ensures KeepsCells(open, open') && Covered(open', closed, nb)
    ensures Frontier(grid, start, open', closed, gScores', Some(expanded[|expanded| - 1].cell))
  {
    var me := |expanded| - 1;
    var current := expanded[me];
    assert CostAt(grid, nb) == grid[nb.y, nb.x];
    var g := current.g + grid[nb.y, nb.x].cost * MoveCost(current.cell, nb);
    assert g == current.g + StepCost(grid, current.cell, nb);
    open', gScores' := Relax(open, gScores, nb, g, end, me);
    RelaxKeeps(grid, start, end, expanded, open, closed, gScores, nb, g, open', gScores');
    RelaxCovers(open, closed, gScores, nb, g, end, me, open', gScores');
    assert Covered(open, closed, nb) || Improves(g, gScores, nb) by {
      if !Improves(g, gScores, nb) {
        assert Scored(gScores, nb);
      }
    }
    FrontierRelax(grid, start, open, closed, gScores, Some(current.cell), open', gScores', nb);
  }

  /** Node `low` leaves the open list, is closed and joins the arena. */
  method Pop(grid: array2<Cost>, start: Cell, end: Cell, expanded: seq<Node>,
             open: seq<Node>, closed: set<Cell>, gScores: map<Cell, real>, low: nat)
    returns (open': seq<Node>, closed': set<Cell>, expanded': seq<Node>)
    requires Shaped(grid) && low < |open|
    requires ArenaOk(grid, start, end, expanded)
    requires OpenOk(grid, start, end, expanded, open, closed, gScores)
    requires ClosedOk(closed, expanded)
    requires Frontier(grid, start, open, closed, gScores, None)
    ensures open' == open[..low] + open[low + 1..]
    ensures closed' == closed + {open[low].cell} && expanded' == expanded + [open[low]]
    ensures InBounds(open[low].cell) && open[low].cell !in closed
    ensures ArenaOk(grid, start, end, expanded')
    ensures OpenOk(grid, start, end, expanded', open', closed', gScores)
    ensures ClosedOk(closed', expanded')
    ensures Frontier(grid, start, open', closed', gScores, Some(open[low].cell))
  {
    var current := open[low];
    assert Linked(grid, start, end, expanded, current, |expanded|);
    PopKeepsArena(grid, start, end, expanded, current);
    PopKeepsOpen(grid, start, end, expanded, open, closed, gScores, low);
    PopKeepsClosed(closed, expanded, current);
    FrontierPop(grid, start, open, closed, gScores, low);
    open', closed', expanded' := open[..low] + open[low + 1..], closed + {current.cell}, expanded + [current];
  }

  /** The goal is popped: the path back to the start reaches it, and it
      is either the start itself or a water cell. */
  method ReachGoal(grid: array2<Cost>, start: Cell, end: Cell, expanded: seq<Node>,
                   open: seq<Node>, closed: set<Cell>, gScores: map<Cell, real>, low: nat)
    returns (steps: seq<PathStep>)
    requires Shaped(grid) && low < |open| && open[low].cell == end
    requires ArenaOk(grid, start, end, expanded)
    requires OpenOk(grid, start, end, expanded, open, closed, gScores)
    requires ClosedOk(closed, expanded)
    requires expanded == [] ==> open == [Node(start, 0.0, Heuristic(start, end), None)]
    requires start == end ==> expanded == []
    ensures ValidPath(grid, start, end, steps) && Simple(steps)
    ensures Reachable(grid, start, end)
    ensures start == end ==> steps == [PathStep(start, 0.0, 0.0)]
    ensures start == end || CostAt(grid, end).Water?
  {
    var current := open[low];
    assert Linked(grid, start, end, expanded, current, |expanded|);
    HeuristicOfGoalIsZero(end);
    steps := Reconstruct(grid, start, end, expanded, current);
    ValidPathIsWalk(grid, start, end, steps);
  }

  /** The invariant of the search loop. */
  ghost predicate SearchOk(grid: array2<Cost>, start: Cell, end: Cell, expanded: seq<Node>,
                           open: seq<Node>, closed: set<Cell>, gScores: map<Cell, real>)
    reads grid
    requires Shaped(grid) && InBounds(end)
  {
    ArenaOk(grid, start, end, expanded) &&
    OpenOk(grid, start, end, expanded, open, closed, gScores) &&
    ClosedOk(closed, expanded) &&
    (expanded == [] ==> open == [Node(start, 0.0, Heuristic(start, end), None)]) &&
    (start == end ==> expanded == []) &&
    (expanded != [] ==> start in closed) &&
    (end in closed ==> CostAt(grid, end) == Land) &&
    Frontier(grid, start, open, closed, gScores, None)
  }

  /** One iteration that does not reach the goal: pop the node of least f,
      close its cell and examine its neighbours. */
  method Expand(grid: array2<Cost>, start: Cell, end: Cell, expanded: seq<Node>,
                open: seq<Node>, closed: set<Cell>, gScores: map<Cell, real>, low: nat)
    returns (open': seq<Node>, closed': set<Cell>, gScores': map<Cell, real>, expanded': seq<Node>)
    requires Shaped(grid) && InBounds(end) && low < |open| && open[low].cell != end
    requires SearchOk(grid, start, end, expanded, open, closed, gScores)
    ensures SearchOk(grid, start, end, expanded', open', closed', gScores')
    ensures InBounds(open[low].cell) && open[low].cell !in closed && closed + {open[low].cell} <= closed'
  {
    var o1, c1, e1 := Pop(grid, start, end, expanded, open, closed, gScores, low);
    assert expanded == [] ==> open[low].cell == start;
    open', closed', gScores' := ExpandNeighbors(grid, start, end, e1, o1, c1, gScores);
    expanded' := e1;
  }

  /** `findPathAStar`. Every returned path runs from `start` to `end`
      through adjacent water cells with its g scores accumulated step by
      step; null is returned exactly when no such water route exists; the
      search expands each grid cell at most once. */
  method FindPathAStar(grid: array2<Cost>, start: Cell, end: Cell)
    returns (path: Option<seq<PathStep>>, ghost expansions: nat)
    requires Shaped(grid) && InBounds(start) && InBounds(end)
    ensures path.Some? ==> ValidPath(grid, start, end, path.value)
    ensures path.Some? ==> Simple(path.value)
    ensures path.None? <==> !Reachable(grid, start, end)
    ensures path.None? ==> forall p :: !ValidPath(grid, start, end, p)
    ensures start == end ==> path == Some([PathStep(start, 0.0, 0.0)])
    ensures CostAt(grid, end) == Land && start != end ==> path.None?
    ensures expansions <= Width * Height
  {
    AllCellsCount();
    var open := [Node(start, 0.0, Heuristic(start, end), None)];
    var closed: set<Cell> := {};
    var gScores := map[start := 0.0];
    var expanded: seq<Node> := [];
    expansions := 0;
    assert open[0].cell == start;
    assert forall c :: Scored(gScores, c) ==> c == start;
    while |open| > 0
      invariant SearchOk(grid, start, end, expanded, open, closed, gScores)
      invariant expansions + |AllCells() - closed| <= |AllCells()|
      decreases |AllCells() - closed|
    {
      var low := LowestF(open);
      if open[low].cell == end {
        var steps := ReachGoal(grid, start, end, expanded, open, closed, gScores, low);
        path := Some(steps);
        return;
      }
      ghost var closed0, c := closed, open[low].cell;
      open, closed, gScores, expanded := Expand(grid, start, end, expanded, open, closed, gScores, low);
      expansions := expansions + 1;
      ShrinkMeasure(closed0, closed, c);
    }
    ExhaustedUnreachable(grid, start, end, closed, gScores);
    UnreachableNoPath(grid, start, end);
    path := None;
  }

  // ---------------------------------------------------------------------
  // Properties of returned paths
  // ---------------------------------------------------------------------

  function CellsOf(path: seq<PathStep>): (cells: seq<Cell>)
    ensures |cells| == |path| && forall i :: 0 <= i < |path| ==> cells[i] == path[i].cell
  {
    seq(|path|, i requires 0 <= i < |path| => path[i].cell)
  }

  /** Every cell after the first is an in-grid water cell. */
  ghost predicate Waterway(grid: array2<Cost>, cells: seq<Cell>)
    reads grid
    requires Shaped(grid)
  {
    forall i :: 0 < i < |cells| ==> InBounds(cells[i]) && CostAt(grid, cells[i]).Water?
  }

  /** Total cost of sailing along `cells`: the sum of the step costs. */
  ghost function RouteCost(grid: array2<Cost>, cells: seq<Cell>): real
    reads grid
    requires Shaped(grid) && Waterway(grid, cells)
    decreases |cells|
  {
    if |cells| <= 1 then 0.0
    else
      assert Waterway(grid, cells[..|cells| - 1]);
      RouteCost(grid, cells[..|cells| - 1]) + StepCost(grid, cells[|cells| - 2], cells[|cells| - 1])
  }

  lemma StepsWaterway(grid: array2<Cost>, end: Cell, path: seq<PathStep>)
    requires Shaped(grid) && Steps(grid, end, path)
    ensures Waterway(grid, CellsOf(path))
  {
  }

  lemma StepsPrefix(grid: array2<Cost>, end: Cell, path: seq<PathStep>, n: nat)
    requires Shaped(grid) && Steps(grid, end, path) && n <= |path|
    ensures Steps(grid, end, path[..n])
  {
  }

  /** The g score kept along a path is the start's score plus the route cost. */
  lemma {:induction false} StepsAccumulateCost(grid: array2<Cost>, end: Cell, path: seq<PathStep>)
    requires Shaped(grid) && Steps(grid, end, path) && |path| > 0
    ensures Waterway(grid, CellsOf(path))
    ensures path[|path| - 1].g == path[0].g + RouteCost(grid, CellsOf(path))
    decreases |path|
  {
    StepsWaterway(grid, end, path);
    var n := |path|;
    if n > 1 {
      var front := path[..n - 1];
      StepsPrefix(grid, end, path, n - 1);
      StepsAccumulateCost(grid, end, front);
      StepsLast(grid, end, path);
      RouteCostSnoc(grid, path);
    }
  }

  /** The last step of a path adds the cost of entering its last cell. */
  lemma StepsLast(grid: array2<Cost>, end: Cell, path: seq<PathStep>)
    requires Shaped(grid) && Steps(grid, end, path) && |path| > 1
    ensures var n := |path|;
            InBounds(path[n - 1].cell) && CostAt(grid, path[n - 1].cell).Water? &&
            path[n - 1].g == path[n - 2].g + StepCost(grid, path[n - 2].cell, path[n - 1].cell)
  {
    assert 0 < |path| - 1 < |path|;
  }

  /** The route cost of a path is that of the path without its last step,
      plus that step. */
  lemma RouteCostSnoc(grid: array2<Cost>, path: seq<PathStep>)
    requires Shaped(grid) && Waterway(grid, CellsOf(path)) && |path| > 1
    ensures var n := |path|;
            Waterway(grid, CellsOf(path[..n - 1])) &&
            RouteCost(grid, CellsOf(path)) ==
              RouteCost(grid, CellsOf(path[..n - 1])) + StepCost(grid, path[n - 2].cell, path[n - 1].cell)
  {
    var cells := CellsOf(path);
    assert CellsOf(path[..|path| - 1]) == cells[..|cells| - 1];
  }

  /** A returned path's final g score is exactly the cost of the route. */
  lemma PathScoreIsRouteCost(grid: array2<Cost>, start: Cell, end: Cell, path: seq<PathStep>)
    requires Shaped(grid) && ValidPath(grid, start, end, path)
    ensures Waterway(grid, CellsOf(path))
    ensures path[|path| - 1].g == RouteCost(grid, CellsOf(path))
  {
    StepsAccumulateCost(grid, end, path);
  }

  lemma SquareMonotone(a: real, b: real)
    requires 0.0 <= a <= b
    ensures a * a <= b * b
  {
  }

  /** A non-negative h whose square is within 2^-20 of 2 from below lies
      above 1.414. */
  lemma RootOfTwoExceedsDiagonal(h: real)
    requires h >= 0.0
    requires 2.0 < Square(h + 1.0 / SqrtScale as real)
    ensures h > DiagonalCost
  {
    var e := 1.0 / SqrtScale as real;
    if h <= DiagonalCost {
      SquareMonotone(h + e, DiagonalCost + e);
    }
  }

  lemma DiagonalBound(a: Cell, b: Cell)
    requires DistSquared(a, b) == 2
    ensures Heuristic(a, b) > DiagonalCost
  {
    HeuristicBounds(a, b);
    RootOfTwoExceedsDiagonal(Heuristic(a, b));
  }

  /** `DIAGONAL_COST` is 1.414, just below the square root of 2, so the
      heuristic exceeds the cost of a diagonal step over open water: it is
      not admissible for such moves. */
  lemma HeuristicExceedsDiagonalStep(c: Cell)
    ensures Heuristic(c, Cell(c.x + 1, c.y + 1)) > DiagonalCost * OpenWaterCost
  {
    var d := Cell(c.x + 1, c.y + 1);
    assert d.x - c.x == 1 && d.y - c.y == 1;
    assert DistSquared(c, d) == 2;
    DiagonalBound(c, d);
  }
}
