/** The paint engine behind a click or drag on one cell: eyedropper,
    pencil / eraser, and the breadth-first flood fill. */
module Paint {
  import opened Types
  import opened Project

  datatype Pos = Pos(x: int, y: int)

  /** What a cell action asks of the editor: nothing, commit a new grid for
      a layer (UPDATE_GRID), or take a colour and switch to the pencil. */
  datatype Effect = NoEffect | Commit(grid: Grid, layerId: string) | PickColor(color: string)

  // ---------------------------------------------------------------------
  // Finding the active layer

  /** k is the first position holding a layer with this id. */
  predicate FirstWithId(layers: seq<Layer>, id: string, k: int)
  {
    0 <= k < |layers| && layers[k].id == id && forall j :: 0 <= j < k ==> layers[j].id != id
  }

  /** `layers.find(l => l.id === id)`. */
  function FindLayer(layers: seq<Layer>, id: string): (r: Option<Layer>)
    ensures r.None? <==> forall k :: 0 <= k < |layers| ==> layers[k].id != id
    ensures r.Some? ==> r.value in layers
    ensures r.Some? ==> exists k :: FirstWithId(layers, id, k) && layers[k] == r.value
  {
    if layers == [] then None
    else if layers[0].id == id then (assert FirstWithId(layers, id, 0); Some(layers[0]))
    else
      var r := FindLayer(layers[1..], id);
      assert r.Some? ==> exists k :: FirstWithId(layers, id, k) && layers[k] == r.value by {
        if r.Some? {
          var k :| FirstWithId(layers[1..], id, k) && layers[1..][k] == r.value;
          assert FirstWithId(layers, id, k + 1);
        }
      }
      r
  }

  // ---------------------------------------------------------------------
  // Eyedropper

  /** The eyedropper takes its colour from this layer at (x, y). */
  predicate Picks(l: Layer, x: nat, y: nat)
    requires InGrid(l.grid, x, y)
  {
    l.isVisible && Occupied(l.grid[y][x])
  }

  /** k is the first layer the eyedropper can pick from at (x, y). */
  predicate FirstPick(layers: seq<Layer>, x: nat, y: nat, k: int)
    requires forall l :: l in layers ==> InGrid(l.grid, x, y)
  {
    0 <= k < |layers| && Picks(layers[k], x, y) && forall j :: 0 <= j < k ==> !Picks(layers[j], x, y)
  }

  /** The colour the eyedropper finds: the first layer in list order that
      is visible and has a bead at (x, y). */
  function Eyedrop(layers: seq<Layer>, x: nat, y: nat): (r: Option<string>)
    requires forall l :: l in layers ==> InGrid(l.grid, x, y)
    ensures r.None? <==> forall k :: 0 <= k < |layers| ==> !Picks(layers[k], x, y)
    ensures r.Some? ==> exists k :: FirstPick(layers, x, y, k) && Some(r.value) == layers[k].grid[y][x]
  {
    if layers == [] then None
    else if Picks(layers[0], x, y) then (assert FirstPick(layers, x, y, 0); Some(layers[0].grid[y][x].value))
    else
      var r := Eyedrop(layers[1..], x, y);
      assert forall k :: 0 <= k < |layers| - 1 ==> layers[1..][k] == layers[k + 1];
      assert r.Some? ==> exists k :: FirstPick(layers, x, y, k) && Some(r.value) == layers[k].grid[y][x] by {
        if r.Some? {
          var k :| FirstPick(layers[1..], x, y, k) && Some(r.value) == layers[1..][k].grid[y][x];
          assert FirstPick(layers, x, y, k + 1);
        }
      }
      r
  }

  // ---------------------------------------------------------------------
  // Pencil and eraser

  /** The grid with the one cell (x, y) set to `c`. */
  function SetCell(g: Grid, x: nat, y: nat, c: GridColor): (r: Grid)
    requires InGrid(g, x, y)
    ensures |r| == |g| && forall j :: 0 <= j < |g| ==> |r[j]| == |g[j]|
    ensures r[y][x] == c
    ensures forall j, i :: InGrid(g, i, j) ==> (r[j][i] != g[j][i] <==> (j == y && i == x && g[y][x] != c))
  {
    g[y := g[y][x := c]]
  }

  // ---------------------------------------------------------------------
  // Flood fill: the region it paints

  /** p is reachable from `seed` in at most k steps between 4-neighbours,
      every cell on the way (both ends included) having colour t. */
  ghost predicate Reach(g: Grid, t: GridColor, seed: Pos, p: Pos, k: nat)
    decreases k
  {
    InGrid(g, p.x, p.y) && g[p.y][p.x] == t &&
    (p == seed ||
     (k > 0 &&
      (Reach(g, t, seed, Pos(p.x - 1, p.y), k - 1) || Reach(g, t, seed, Pos(p.x + 1, p.y), k - 1) ||
       Reach(g, t, seed, Pos(p.x, p.y - 1), k - 1) || Reach(g, t, seed, Pos(p.x, p.y + 1), k - 1))))
  }

  /** p lies in the 4-connected region of cells of the seed's colour that
      contains the seed. */
  ghost predicate InRegion(g: Grid, seed: Pos, p: Pos)
    requires InGrid(g, seed.x, seed.y)
  {
    exists k: nat :: Reach(g, g[seed.y][seed.x], seed, p, k)
  }

  /** The grid a flood fill from `seed` with colour `c` is meant to give:
      the seed's region recoloured, every other cell as it was. */
  ghost function Filled(g: Grid, seed: Pos, c: GridColor): (r: Grid)
    requires InGrid(g, seed.x, seed.y)
    ensures |r| == |g| && forall j :: 0 <= j < |g| ==> |r[j]| == |g[j]|
  {
    seq(|g|, j requires 0 <= j < |g| =>
      seq(|g[j]|, i requires 0 <= i < |g[j]| =>
        if InRegion(g, seed, Pos(i, j)) then c else g[j][i]))
  }

  /** A neighbour of a region cell that has the seed's colour is in the
      region too. */
  lemma RegionStep(g: Grid, seed: Pos, p: Pos, n: Pos)
    requires InGrid(g, seed.x, seed.y) && InRegion(g, seed, p)
    requires n in [Pos(p.x + 1, p.y), Pos(p.x - 1, p.y), Pos(p.x, p.y + 1), Pos(p.x, p.y - 1)]
    requires InGrid(g, n.x, n.y) && g[n.y][n.x] == g[seed.y][seed.x]
    ensures InRegion(g, seed, n)
  {
    var k: nat :| Reach(g, g[seed.y][seed.x], seed, p, k);
    assert Reach(g, g[seed.y][seed.x], seed, n, k + 1);
  }

  /** No cell leaves the region unpainted in `r` if the seed is painted
      and painting is closed under stepping to a neighbour of colour t. */
  lemma {:induction false} ReachPainted(g: Grid, r: Grid, t: GridColor, seed: Pos, p: Pos, k: nat)
    requires |r| == |g| && forall j :: 0 <= j < |g| ==> |r[j]| == |g[j]|
    requires InGrid(g, seed.x, seed.y) && r[seed.y][seed.x] != t
    requires forall j, i :: InGrid(g, i, j) && g[j][i] == t && r[j][i] != t ==>
      ClosedAt(g, r, t, Pos(i + 1, j)) && ClosedAt(g, r, t, Pos(i - 1, j)) &&
      ClosedAt(g, r, t, Pos(i, j + 1)) && ClosedAt(g, r, t, Pos(i, j - 1))
    requires Reach(g, t, seed, p, k)
    ensures r[p.y][p.x] != t
    decreases k
  {
    if p != seed {
      var m: Pos;
      if Reach(g, t, seed, Pos(p.x - 1, p.y), k - 1) {
        m := Pos(p.x - 1, p.y);
      } else if Reach(g, t, seed, Pos(p.x + 1, p.y), k - 1) {
        m := Pos(p.x + 1, p.y);
      } else if Reach(g, t, seed, Pos(p.x, p.y - 1), k - 1) {
        m := Pos(p.x, p.y - 1);
      } else {
        m := Pos(p.x, p.y + 1);
      }
      ReachPainted(g, r, t, seed, m, k - 1);
      assert ClosedAt(g, r, t, p);
    }
  }

  /** Cell n, if it is on the grid, no longer has colour t in r. */
  ghost predicate ClosedAt(g: Grid, r: Grid, t: GridColor, n: Pos)
    requires |r| == |g| && forall j :: 0 <= j < |g| ==> |r[j]| == |g[j]|
  {
    InGrid(g, n.x, n.y) ==> r[n.y][n.x] != t
  }

  /** A cell reached from the seed is on the grid and has colour t. */
  lemma ReachHasColour(g: Grid, t: GridColor, seed: Pos, p: Pos, k: nat)
    requires Reach(g, t, seed, p, k)
    ensures InGrid(g, p.x, p.y) && g[p.y][p.x] == t
  {
  }

  /** The fill recolours the seed and changes exactly the cells of its
      region, when the new colour differs from the seed's. */
  lemma FillChangesRegion(g: Grid, seed: Pos, c: GridColor)
    requires InGrid(g, seed.x, seed.y) && c != g[seed.y][seed.x]
    ensures Filled(g, seed, c)[seed.y][seed.x] == c
    ensures forall j, i :: InGrid(g, i, j) ==>
      (Filled(g, seed, c)[j][i] != g[j][i] <==> InRegion(g, seed, Pos(i, j)))
  {
    assert Reach(g, g[seed.y][seed.x], seed, seed, 0);
    forall j, i | InGrid(g, i, j) && InRegion(g, seed, Pos(i, j)) ensures g[j][i] == g[seed.y][seed.x] {
      var k: nat :| Reach(g, g[seed.y][seed.x], seed, Pos(i, j), k);
      ReachHasColour(g, g[seed.y][seed.x], seed, Pos(i, j), k);
    }
  }

  /** Filling the filled grid again from the same seed with the same
      colour changes nothing. */
  lemma FillIdempotent(g: Grid, seed: Pos, c: GridColor)
    requires InGrid(g, seed.x, seed.y)
    ensures Filled(Filled(g, seed, c), seed, c) == Filled(g, seed, c)
  {
    var r := Filled(g, seed, c);
    assert Reach(g, g[seed.y][seed.x], seed, seed, 0);
    assert r[seed.y][seed.x] == c;
    var rr := Filled(r, seed, c);
    forall j, i | InGrid(r, i, j) ensures rr[j][i] == r[j][i] {
      if InRegion(r, seed, Pos(i, j)) {
        var k: nat :| Reach(r, c, seed, Pos(i, j), k);
        ReachHasColour(r, c, seed, Pos(i, j), k);
      }
    }
    assert forall j :: 0 <= j < |r| ==> rr[j] == r[j];
  }

  // ---------------------------------------------------------------------
  // Flood fill: what the worklist keeps true

  /** The four cells the fill enqueues after painting p, in its order. */
  function Next(p: Pos): seq<Pos>
  {
    [Pos(p.x + 1, p.y), Pos(p.x - 1, p.y), Pos(p.x, p.y + 1), Pos(p.x, p.y - 1)]
  }

  predicate SameShape(a: Grid, b: Grid)
  {
    |a| == |b| && forall j :: 0 <= j < |a| ==> |a[j]| == |b[j]|
  }

  /** Cell n of the working grid is not an unpainted cell of colour t that
      the queue has lost track of. */
  ghost predicate Tracked(cur: Grid, t: GridColor, q: seq<Pos>, n: Pos)
  {
    InGrid(cur, n.x, n.y) && cur[n.y][n.x] == t ==> n in q
  }

  ghost predicate NeighboursTracked(cur: Grid, t: GridColor, q: seq<Pos>, i: int, j: int)
  {
    Tracked(cur, t, q, Pos(i + 1, j)) && Tracked(cur, t, q, Pos(i - 1, j)) &&
    Tracked(cur, t, q, Pos(i, j + 1)) && Tracked(cur, t, q, Pos(i, j - 1))
  }

  /** The loop invariant of the fill, over the original grid, the working
      grid `cur` and the queue: only region cells were painted, queued cells
      of the target colour are in the region, and every painted cell's
      unpainted target-coloured neighbours, like the seed until it is
      painted, wait in the queue. */
  ghost predicate FillInv(grid: Grid, seed: Pos, c: GridColor, cur: Grid, q: seq<Pos>)
    requires InGrid(grid, seed.x, seed.y)
  {
    var t := grid[seed.y][seed.x];
    SameShape(cur, grid) &&
    (forall j, i :: InGrid(grid, i, j) ==>
      cur[j][i] == grid[j][i] || (grid[j][i] == t && cur[j][i] == c && InRegion(grid, seed, Pos(i, j)))) &&
    (forall n :: 0 <= n < |q| && InGrid(grid, q[n].x, q[n].y) && grid[q[n].y][q[n].x] == t ==>
      InRegion(grid, seed, q[n])) &&
    (forall j, i :: InGrid(grid, i, j) && cur[j][i] != grid[j][i] ==> NeighboursTracked(cur, t, q, i, j)) &&
    Tracked(cur, t, q, seed)
  }

  lemma FillInvInit(grid: Grid, seed: Pos, c: GridColor)
    requires InGrid(grid, seed.x, seed.y)
    ensures FillInv(grid, seed, c, grid, [seed])
  {
    assert Reach(grid, grid[seed.y][seed.x], seed, seed, 0);
  }

  /** Dropping a queued cell that is off the grid or no longer of the
      target colour keeps the invariant. */
  lemma FillInvSkip(grid: Grid, seed: Pos, c: GridColor, cur: Grid, q: seq<Pos>)
    requires InGrid(grid, seed.x, seed.y) && FillInv(grid, seed, c, cur, q) && |q| > 0
    requires !(InGrid(cur, q[0].x, q[0].y) && cur[q[0].y][q[0].x] == grid[seed.y][seed.x])
    ensures FillInv(grid, seed, c, cur, q[1..])
  {
    var t := grid[seed.y][seed.x];
    forall n | Tracked(cur, t, q, n) ensures Tracked(cur, t, q[1..], n) {
      if InGrid(cur, n.x, n.y) && cur[n.y][n.x] == t {
        assert n != q[0];
        assert q == [q[0]] + q[1..];
      }
    }
    forall n | 0 <= n < |q[1..]| ensures q[1..][n] == q[n + 1] { }
  }

  /** Painting the queued cell at the front and enqueueing its neighbours
      keeps the invariant. */
  lemma FillInvPaint(grid: Grid, seed: Pos, c: GridColor, cur: Grid, q: seq<Pos>)
    requires InGrid(grid, seed.x, seed.y) && c != grid[seed.y][seed.x]
    requires FillInv(grid, seed, c, cur, q) && |q| > 0
    requires InGrid(cur, q[0].x, q[0].y) && cur[q[0].y][q[0].x] == grid[seed.y][seed.x]
    ensures FillInv(grid, seed, c, SetCell(cur, q[0].x, q[0].y, c), q[1..] + Next(q[0]))
  {
    var t := grid[seed.y][seed.x];
    var p := q[0];
    assert grid[p.y][p.x] == t;
    assert InRegion(grid, seed, p);
    TrackedPaint(cur, t, q, c, seed);
    QueuedInRegion(grid, seed, q);
    PaintedTracked(grid, cur, t, q, c);
  }

  /** After the step, queued cells of the target colour are still in the
      region: the old ones were, the new ones neighbour a region cell. */
  lemma QueuedInRegion(grid: Grid, seed: Pos, q: seq<Pos>)
    requires InGrid(grid, seed.x, seed.y) && |q| > 0 && InRegion(grid, seed, q[0])
    requires forall n :: 0 <= n < |q| && InGrid(grid, q[n].x, q[n].y) && grid[q[n].y][q[n].x] == grid[seed.y][seed.x] ==>
      InRegion(grid, seed, q[n])
    ensures var q' := q[1..] + Next(q[0]);
      forall n :: 0 <= n < |q'| && InGrid(grid, q'[n].x, q'[n].y) && grid[q'[n].y][q'[n].x] == grid[seed.y][seed.x] ==>
        InRegion(grid, seed, q'[n])
  {
    var t := grid[seed.y][seed.x];
    var q' := q[1..] + Next(q[0]);
    forall n | 0 <= n < |q'| && InGrid(grid, q'[n].x, q'[n].y) && grid[q'[n].y][q'[n].x] == t
      ensures InRegion(grid, seed, q'[n])
    {
      if n < |q| - 1 {
        assert q'[n] == q[n + 1];
      } else {
        RegionStep(grid, seed, q[0], q'[n]);
      }
    }
  }

  /** After the step, every painted cell has its neighbours tracked. */
  lemma PaintedTracked(grid: Grid, cur: Grid, t: GridColor, q: seq<Pos>, c: GridColor)
    requires SameShape(cur, grid) && |q| > 0 && InGrid(cur, q[0].x, q[0].y) && c != t
    requires forall j, i :: InGrid(grid, i, j) && cur[j][i] != grid[j][i] ==> NeighboursTracked(cur, t, q, i, j)
    ensures var cur', q' := SetCell(cur, q[0].x, q[0].y, c), q[1..] + Next(q[0]);
      forall j, i :: InGrid(grid, i, j) && cur'[j][i] != grid[j][i] ==> NeighboursTracked(cur', t, q', i, j)
  {
    var p := q[0];
    var cur' := SetCell(cur, p.x, p.y, c);
    var q' := q[1..] + Next(p);
    forall j, i | InGrid(grid, i, j) && cur'[j][i] != grid[j][i]
      ensures NeighboursTracked(cur', t, q', i, j)
    {
      if (i, j) != (p.x, p.y) {
        assert NeighboursTracked(cur, t, q, i, j);
        TrackedPaint(cur, t, q, c, Pos(i + 1, j));
        TrackedPaint(cur, t, q, c, Pos(i - 1, j));
        TrackedPaint(cur, t, q, c, Pos(i, j + 1));
        TrackedPaint(cur, t, q, c, Pos(i, j - 1));
      } else {
        NextTracked(cur', t, q[1..], p);
      }
    }
  }

  /** A cell the queue tracked stays tracked once the front cell is painted
      and its neighbours are enqueued. */
  lemma TrackedPaint(cur: Grid, t: GridColor, q: seq<Pos>, c: GridColor, n: Pos)
    requires |q| > 0 && InGrid(cur, q[0].x, q[0].y) && c != t
    requires Tracked(cur, t, q, n)
    ensures Tracked(SetCell(cur, q[0].x, q[0].y, c), t, q[1..] + Next(q[0]), n)
  {
    var cur' := SetCell(cur, q[0].x, q[0].y, c);
    if InGrid(cur', n.x, n.y) && cur'[n.y][n.x] == t {
      assert n != q[0];
      assert q == [q[0]] + q[1..];
    }
  }

  /** The neighbours just enqueued are tracked. */
  lemma NextTracked(cur: Grid, t: GridColor, rest: seq<Pos>, p: Pos)
    ensures NeighboursTracked(cur, t, rest + Next(p), p.x, p.y)
  {
    var q' := rest + Next(p);
    assert q'[|rest|] == Pos(p.x + 1, p.y) && q'[|rest| + 1] == Pos(p.x - 1, p.y);
    assert q'[|rest| + 2] == Pos(p.x, p.y + 1) && q'[|rest| + 3] == Pos(p.x, p.y - 1);
  }

  /** Every unpainted cell of the target colour is still counted in
      `remaining`, the fill's termination measure. */
  ghost predicate Pending(cur: Grid, t: GridColor, remaining: set<Pos>)
  {
    forall p: Pos :: InGrid(cur, p.x, p.y) && cur[p.y][p.x] == t ==> p in remaining
  }

  /** Painting a pending cell removes it, and only it, from the measure. */
  lemma PendingPaint(cur: Grid, t: GridColor, remaining: set<Pos>, p: Pos, c: GridColor)
    requires Pending(cur, t, remaining) && InGrid(cur, p.x, p.y) && cur[p.y][p.x] == t && c != t
    ensures p in remaining && Pending(SetCell(cur, p.x, p.y, c), t, remaining - {p})
  {
  }

  /** With the queue empty, the working grid is the filled grid. */
  lemma FillInvDone(grid: Grid, seed: Pos, c: GridColor, cur: Grid)
    requires InGrid(grid, seed.x, seed.y) && c != grid[seed.y][seed.x]
    requires FillInv(grid, seed, c, cur, [])
    ensures cur == Filled(grid, seed, c)
  {
    var t := grid[seed.y][seed.x];
    var f := Filled(grid, seed, c);
    forall j, i | InGrid(grid, i, j) && grid[j][i] == t && cur[j][i] != t
      ensures ClosedAt(grid, cur, t, Pos(i + 1, j)) && ClosedAt(grid, cur, t, Pos(i - 1, j)) &&
              ClosedAt(grid, cur, t, Pos(i, j + 1)) && ClosedAt(grid, cur, t, Pos(i, j - 1))
    {
      assert NeighboursTracked(cur, t, [], i, j);
    }
    forall j, i | InGrid(grid, i, j) ensures cur[j][i] == f[j][i] {
      if InRegion(grid, seed, Pos(i, j)) {
        var k: nat :| Reach(grid, t, seed, Pos(i, j), k);
        ReachPainted(grid, cur, t, seed, Pos(i, j), k);
      }
    }
    assert forall j :: 0 <= j < |cur| ==> cur[j] == f[j];
  }

  // ---------------------------------------------------------------------
  // Flood fill: the worklist algorithm

  /** The mutable working copy holds exactly the cells of `g`. */
  ghost predicate Mirrors(a: array2<GridColor>, g: Grid)
    reads a
  {
    GridWf(g, a.Length1, a.Length0) &&
    forall j, i :: 0 <= j < a.Length0 && 0 <= i < a.Length1 ==> a[j, i] == g[j][i]
  }

  lemma MirrorsOne(a: array2<GridColor>, g: Grid, h: Grid)
    requires Mirrors(a, g) && Mirrors(a, h)
    ensures g == h
  {
    assert forall j :: 0 <= j < |g| ==> g[j] == h[j];
  }

  /** Paints one cell of the working copy. */
  method Paint(a: array2<GridColor>, ghost g: Grid, x: nat, y: nat, c: GridColor)
    requires Mirrors(a, g) && y < a.Length0 && x < a.Length1
    modifies a
    ensures Mirrors(a, SetCell(g, x, y, c))
  {
    a[y, x] := c;
  }

  /** The working copy read back as rows of cells. */
  function Contents(a: array2<GridColor>): (g: Grid)
    reads a
    ensures Mirrors(a, g)
  {
    seq(a.Length0, j requires 0 <= j < a.Length0 reads a =>
      seq(a.Length1, i requires 0 <= i < a.Length1 reads a => a[j, i]))
  }

  /** Breadth-first fill over a mutable copy of the grid, from (x, y) with
      `color`; the caller has already returned when the seed has that
      colour (the loop would not end otherwise). */
  method FloodFill(grid: Grid, width: nat, height: nat, x: nat, y: nat, color: GridColor) returns (r: Grid)
    requires GridWf(grid, width, height) && x < width && y < height
    requires grid[y][x] != color
    ensures r == Filled(grid, Pos(x, y), color)
  {
    var target := grid[y][x];
    ghost var seed := Pos(x, y);
    var a := new GridColor[height, width]((j, i) requires 0 <= j < height && 0 <= i < width => grid[j][i]);
    var q := [Pos(x, y)];
    ghost var cur := grid;
    ghost var remaining := set j, i | 0 <= j < height && 0 <= i < width :: Pos(i, j);
    FillInvInit(grid, seed, color);
    while |q| > 0
      invariant a.Length0 == height && a.Length1 == width && Mirrors(a, cur)
      invariant FillInv(grid, seed, color, cur, q)
      invariant Pending(cur, target, remaining)
      decreases remaining, |q|
    {
      var p := q[0];
      if p.x < 0 || p.x >= width || p.y < 0 || p.y >= height || a[p.y, p.x] != target {
        FillInvSkip(grid, seed, color, cur, q);
        q := q[1..];
        continue;
      }
      FillInvPaint(grid, seed, color, cur, q);
      PendingPaint(cur, target, remaining, p, color);
      Paint(a, cur, p.x, p.y, color);
      cur := SetCell(cur, p.x, p.y, color);
      remaining := remaining - {p};
      q := q[1..] + Next(p);
    }
    FillInvDone(grid, seed, color, cur);
    r := Contents(a);
    MirrorsOne(a, r, cur);
  }

  // ---------------------------------------------------------------------
  // One cell action

  /** What one tool application at (x, y) is meant to do: nothing without
      an active layer; the eyedropper reads the layers; fill and pencil
      commit a new grid for the active layer unless the clicked cell
      already has the colour. */
  ghost function CellActionSpec(layers: seq<Layer>, activeLayerId: string, width: nat, height: nat,
                                x: nat, y: nat, color: GridColor, tool: Tool): (e: Effect)
    requires x < width && y < height
    requires forall l :: l in layers ==> GridWf(l.grid, width, height)
    ensures e.PickColor? ==> tool == Eyedropper && e.color != []
    ensures e.Commit? ==>
      tool != Eyedropper && e.layerId == activeLayerId && GridWf(e.grid, width, height) &&
      exists k :: FirstWithId(layers, activeLayerId, k) && e.grid != layers[k].grid && e.grid[y][x] == color
  {
    match FindLayer(layers, activeLayerId)
    case None => NoEffect
    case Some(active) =>
      assert GridWf(active.grid, width, height);
      OnEveryLayer(layers, width, height, x, y);
      if tool == Eyedropper then
        match Eyedrop(layers, x, y)
        case Some(c) => PickColor(c)
        case None => NoEffect
      else if active.grid[y][x] == color then NoEffect
      else if tool == Fill then
        FillChangesRegion(active.grid, Pos(x, y), color);
        Commit(Filled(active.grid, Pos(x, y), color), activeLayerId)
      else Commit(SetCell(active.grid, x, y, color), activeLayerId)
  }

  /** A point of the board is a cell of every layer. */
  lemma OnEveryLayer(layers: seq<Layer>, width: nat, height: nat, x: nat, y: nat)
    requires x < width && y < height
    requires forall l :: l in layers ==> GridWf(l.grid, width, height)
    ensures forall l :: l in layers ==> InGrid(l.grid, x, y)
  {
  }

  /** handleCellAction. `color` is the pencil colour, `None` for the
      eraser; coordinates come from the board, so they are on it. */
  method HandleCellAction(layers: seq<Layer>, activeLayerId: string, width: nat, height: nat,
                          x: nat, y: nat, color: GridColor, tool: Tool) returns (e: Effect)
    requires x < width && y < height
    requires forall l :: l in layers ==> GridWf(l.grid, width, height)
    ensures e == CellActionSpec(layers, activeLayerId, width, height, x, y, color, tool)
  {
    var active := FindLayer(layers, activeLayerId);
    if active.None? {
      return NoEffect;
    }
    var g := active.value.grid;
    assert GridWf(g, width, height);
    OnEveryLayer(layers, width, height, x, y);
    if tool == Eyedropper {
      var picked := ScanForColor(layers, x, y);
      return match picked case Some(c) => PickColor(c) case None => NoEffect;
    }
    if tool == Fill {
      if g[y][x] == color {
        return NoEffect;
      }
      var filled := FloodFill(g, width, height, x, y, color);
      return Commit(filled, activeLayerId);
    }
    if g[y][x] == color {
      return NoEffect;
    }
    return Commit(SetCell(g, x, y, color), activeLayerId);
  }

  /** The eyedropper's `for (const layer of layers)` scan. */
  method ScanForColor(layers: seq<Layer>, x: nat, y: nat) returns (picked: Option<string>)
    requires forall l :: l in layers ==> InGrid(l.grid, x, y)
    ensures picked == Eyedrop(layers, x, y)
  {
    var i := 0;
    while i < |layers|
      invariant 0 <= i <= |layers|
      invariant forall k :: 0 <= k < i ==> !Picks(layers[k], x, y)
    {
      if layers[i].isVisible && Occupied(layers[i].grid[y][x]) {
        EyedropFirst(layers, x, y, i);
        return Some(layers[i].grid[y][x].value);
      }
      i := i + 1;
    }
    return None;
  }

  /** The eyedropper's answer is the colour of the first layer that picks. */
  lemma EyedropFirst(layers: seq<Layer>, x: nat, y: nat, i: nat)
    requires forall l :: l in layers ==> InGrid(l.grid, x, y)
    requires i < |layers| && Picks(layers[i], x, y)
    requires forall k :: 0 <= k < i ==> !Picks(layers[k], x, y)
    ensures Eyedrop(layers, x, y) == Some(layers[i].grid[y][x].value)
  {
    var r := Eyedrop(layers, x, y);
    var k :| FirstPick(layers, x, y, k) && Some(r.value) == layers[k].grid[y][x];
    assert k == i;
  }

  /** After UPDATE_GRID, looking the active layer up again finds it with
      the committed grid. */
  lemma FindAfterReplace(layers: seq<Layer>, id: string, g: Grid)
    requires FindLayer(layers, id).Some?
    ensures FindLayer(ReplaceGrid(layers, id, g), id) == Some(FindLayer(layers, id).value.(grid := g))
  {
    var k :| FirstWithId(layers, id, k) && layers[k] == FindLayer(layers, id).value;
    var ls := ReplaceGrid(layers, id, g);
    assert FirstWithId(ls, id, k);
    var k' :| FirstWithId(ls, id, k') && ls[k'] == FindLayer(ls, id).value;
    assert k' == k;
  }

  /** Applying the same pencil, eraser or fill action again, once its
      commit has been reduced into the layers, has no effect: a drag that
      passes over a cell twice commits it once, and a second identical
      fill does nothing. */
  lemma RepeatIsNoOp(layers: seq<Layer>, activeLayerId: string, width: nat, height: nat,
                     x: nat, y: nat, color: GridColor, tool: Tool)
    requires x < width && y < height
    requires forall l :: l in layers ==> GridWf(l.grid, width, height)
    requires CellActionSpec(layers, activeLayerId, width, height, x, y, color, tool).Commit?
    ensures var e := CellActionSpec(layers, activeLayerId, width, height, x, y, color, tool);
      var after := ReplaceGrid(layers, activeLayerId, e.grid);
      (forall l :: l in after ==> GridWf(l.grid, width, height)) &&
      CellActionSpec(after, activeLayerId, width, height, x, y, color, tool) == NoEffect
  {
    var e := CellActionSpec(layers, activeLayerId, width, height, x, y, color, tool);
    var after := ReplaceGrid(layers, activeLayerId, e.grid);
    forall l | l in after ensures GridWf(l.grid, width, height) {
      var i :| 0 <= i < |after| && after[i] == l;
      assert layers[i] in layers;
    }
    FindAfterReplace(layers, activeLayerId, e.grid);
  }

  /** The pencil and the eraser change the active layer's grid in exactly
      the clicked cell. */
  lemma PencilTouchesOneCell(layers: seq<Layer>, activeLayerId: string, width: nat, height: nat,
                             x: nat, y: nat, color: GridColor, tool: Tool)
    requires x < width && y < height
    requires forall l :: l in layers ==> GridWf(l.grid, width, height)
    requires tool != Fill
    requires CellActionSpec(layers, activeLayerId, width, height, x, y, color, tool).Commit?
    ensures var g := FindLayer(layers, activeLayerId).value.grid;
      var e := CellActionSpec(layers, activeLayerId, width, height, x, y, color, tool);
      GridWf(g, width, height) &&
      forall j, i :: 0 <= j < height && 0 <= i < width ==> (e.grid[j][i] != g[j][i] <==> j == y && i == x)
  {
  }
}
